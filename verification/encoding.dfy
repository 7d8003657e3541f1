/** One-hot cell categories of the learner's belief grid.

    A belief vector has 2 + 2C entries (C goal colours): index 0 is "empty"
    (also used for the learner's own cell), index 1 is "wall", and for goal
    colour g (0-based) index 2 + 2g is its goal (a door) and 2 + 2g + 1 its
    sub-goal (a key). Observations carry 1-based colour indices, so colour
    index c lands on 2 + 2(c - 1). */
module Encoding {

  /** Object-type indices of the environment's encoding. */
  const KindWall := 2
  const KindDoor := 4
  const KindKey := 5

  /** One observed cell: (object type, colour index). */
  datatype Obj = Obj(kind: int, color: int)

  const CatEmpty := 0
  const CatWall := 1

  function NumCategories(numColors: nat): nat { 2 + 2 * numColors }

  /** Category of the goal of 0-based colour g. */
  function GoalCat(g: nat): nat { 2 + 2 * g }

  /** Category of the sub-goal of 0-based colour g. */
  function SubgoalCat(g: nat): nat { 2 + 2 * g + 1 }

  /** The colour index of a door or key must be a valid array position once
      turned into 2 + (c - 1) * 2 (+ 1). */
  predicate ColorOk(o: Obj, numColors: nat)
  {
    (o.kind == KindDoor || o.kind == KindKey) ==> 0 <= o.color <= numColors
  }

  /** The vector of `size` entries with 1 at `k` and 0 elsewhere. */
  function OneHot(k: nat, size: nat): (v: seq<real>)
    ensures |v| == size
  {
    seq(size, i => if i == k then 1.0 else 0.0)
  }

  /** Positions holding exactly 1. */
  ghost function Ones(v: seq<real>): set<nat>
  {
    set i: nat | i < |v| && v[i] == 1.0
  }

  /** Category index chosen for a visible cell, in `update_learner_belief`'s priority
      order: own cell, door, key, wall, anything else. */
  function Category(isSelf: bool, o: Obj, numColors: nat): (k: nat)
    requires isSelf || ColorOk(o, numColors)
    ensures k < NumCategories(numColors)
  {
    if isSelf then CatEmpty
    else if o.kind == KindDoor then 2 + (o.color - 1) * 2
    else if o.kind == KindKey then 2 + (o.color - 1) * 2 + 1
    else if o.kind == KindWall then CatWall
    else CatEmpty
  }

  /** The belief vector written for a visible cell: of length 2 + 2C with
      exactly one entry equal to 1, at the cell's category, and 0 elsewhere. */
  function EncodeCell(isSelf: bool, o: Obj, numColors: nat): (v: seq<real>)
    requires isSelf || ColorOk(o, numColors)
    ensures |v| == NumCategories(numColors)
    ensures Ones(v) == {Category(isSelf, o, numColors)}
    ensures forall i | 0 <= i < |v| && i != Category(isSelf, o, numColors) :: v[i] == 0.0
    ensures isSelf ==> v[CatEmpty] == 1.0
    ensures !isSelf && o.kind == KindDoor && 1 <= o.color ==> v[GoalCat(o.color - 1)] == 1.0
    ensures !isSelf && o.kind == KindKey && 1 <= o.color ==> v[SubgoalCat(o.color - 1)] == 1.0
    ensures !isSelf && o.kind == KindWall ==> v[CatWall] == 1.0
    ensures !isSelf && o.kind !in {KindWall, KindDoor, KindKey} ==> v[CatEmpty] == 1.0
  {
    var k := Category(isSelf, o, numColors);
    var v := OneHot(k, NumCategories(numColors));
    assert Ones(v) == {k} by {
      forall i | i in Ones(v) ensures i == k { }
      assert v[k] == 1.0;
    }
    v
  }

  /** What a non-self observation shows, independently of the vector layout. */
  datatype Seen = SeenEmpty | SeenWall | SeenGoal(c: int) | SeenKey(c: int)

  function Classify(o: Obj): Seen
  {
    if o.kind == KindDoor then SeenGoal(o.color)
    else if o.kind == KindKey then SeenKey(o.color)
    else if o.kind == KindWall then SeenWall
    else SeenEmpty
  }

  /** A door or key whose colour index is a real colour (1..C). */
  predicate ProperColor(o: Obj, numColors: nat)
  {
    (o.kind == KindDoor || o.kind == KindKey) ==> 1 <= o.color <= numColors
  }

  /** For cells other than the learner's own, two observations receive the
      same belief vector exactly when they show the same kind of thing. */
  lemma EncodeSeparatesObjects(o1: Obj, o2: Obj, numColors: nat)
    requires ProperColor(o1, numColors) && ProperColor(o2, numColors)
    ensures EncodeCell(false, o1, numColors) == EncodeCell(false, o2, numColors)
            <==> Classify(o1) == Classify(o2)
  {
    var k1 := Category(false, o1, numColors);
    var k2 := Category(false, o2, numColors);
    var v1 := EncodeCell(false, o1, numColors);
    var v2 := EncodeCell(false, o2, numColors);
    if k1 != k2 {
      assert v1[k1] != v2[k1];
    }
  }
}
