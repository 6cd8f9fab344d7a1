/** Docking tube geometry: converting a (left/right, up/down) offset in the
    plane of the tube's mouth to a world-axis coordinate and back, and the
    six button positions around the tube's door. */
module DockingTube {
  import opened Common

  /** `relativeOffsetToCoordinate`: on a facing along x the sideways offset
      goes to z, on a facing along z it goes to x; y is always the vertical
      offset. Vertical and diagonal facings are an error. */
  function OffsetToCoordinate(facing: Face, leftRight: int, upDown: int): (r: Result<Vec3>)
    ensures r.Ok? <==> IsHorizontal(facing)
    ensures r.Ok? ==> r.value.y == upDown
    ensures r.Ok? && AxisOf(facing) == Some(X) ==> r.value == Vec3(0, upDown, leftRight)
    ensures r.Ok? && AxisOf(facing) == Some(Z) ==> r.value == Vec3(leftRight, upDown, 0)
  {
    match AxisOf(facing)
    case Some(X) => Ok(Vec3(0, upDown, leftRight))
    case Some(Z) => Ok(Vec3(leftRight, upDown, 0))
    case _ => Fail("not implemented for this facing")
  }

  /** `relativeCoordinateToOffset`: reads the sideways offset back from z
      (facing along x) or x (facing along z), and the vertical one from y. */
  function CoordinateToOffset(facing: Face, offset: Vec3): (r: Result<(int, int)>)
    ensures r.Ok? <==> IsHorizontal(facing)
    ensures r.Ok? ==> r.value.1 == offset.y
  {
    match AxisOf(facing)
    case Some(X) => Ok((offset.z, offset.y))
    case Some(Z) => Ok((offset.x, offset.y))
    case _ => Fail("not implemented for this facing")
  }

  /** The component of `v` along the facing's own axis. */
  function AlongFacing(facing: Face, v: Vec3): int
    requires IsHorizontal(facing)
  {
    if AxisOf(facing) == Some(X) then v.x else v.z
  }

  /** Converting an offset to a coordinate and back gives the offset, and
      the coordinate never moves along the facing. */
  lemma OffsetRoundTrip(facing: Face, leftRight: int, upDown: int)
    requires IsHorizontal(facing)
    ensures OffsetToCoordinate(facing, leftRight, upDown).Ok?
    ensures AlongFacing(facing, OffsetToCoordinate(facing, leftRight, upDown).value) == 0
    ensures CoordinateToOffset(facing, OffsetToCoordinate(facing, leftRight, upDown).value) == Ok((leftRight, upDown))
  {
  }

  /** Converting a coordinate to an offset and back gives the coordinate
      exactly when it does not move along the facing. */
  lemma CoordinateRoundTrip(facing: Face, v: Vec3)
    requires IsHorizontal(facing)
    ensures var o := CoordinateToOffset(facing, v).value;
      OffsetToCoordinate(facing, o.0, o.1) == Ok(v) <==> AlongFacing(facing, v) == 0
  {
  }

  /** Only the facing's axis is consulted, so opposite facings convert
      identically. */
  lemma OppositeFacingsAgree(facing: Face, leftRight: int, upDown: int, v: Vec3)
    ensures OffsetToCoordinate(Opposite(facing), leftRight, upDown) == OffsetToCoordinate(facing, leftRight, upDown)
    ensures CoordinateToOffset(Opposite(facing), v) == CoordinateToOffset(facing, v)
  {
  }

  /** `getButtons`: the door's upper block is two steps in front of the
      sign, its lower block one below; the buttons sit right, left and above
      the upper block and right, left and below the lower one. Facings
      without a right face are an error. */
  function GetButtons(sign: Vec3, direction: Face): (r: Result<seq<Vec3>>)
    ensures r.Ok? <==> IsHorizontal(direction)
    ensures r.Ok? ==> |r.value| == 6
  {
    match RightFace(direction)
    case None => Fail("no right face")
    case Some(right) =>
      var left := Opposite(right);
      var doorTop := Relative(Relative(sign, direction, 1), direction, 1);
      var doorBottom := Relative(doorTop, Down, 1);
      Ok([Relative(doorTop, right, 1), Relative(doorTop, left, 1), Relative(doorTop, Up, 1),
          Relative(doorBottom, right, 1), Relative(doorBottom, left, 1), Relative(doorBottom, Down, 1)])
  }

  predicate Adjacent(a: Vec3, b: Vec3)
  {
    Abs(a.x - b.x) + Abs(a.y - b.y) + Abs(a.z - b.z) == 1
  }

  /** Six distinct blocks, none of them a door block: one step to the
      `right` of the upper door block `top`, one to its left and one above
      it, then the same to the right and left of the block below it and one
      below that. `right` is a horizontal unit step across the facing. */
  predicate Surround(b: seq<Vec3>, top: Vec3, right: Vec3, facing: Vec3)
  {
    var bottom := top.Plus(Vec3(0, -1, 0));
    |b| == 6
    && right.y == 0 && Abs(right.x) + Abs(right.z) == 1
    && right.x * facing.x + right.z * facing.z == 0
    && b[0] == top.Plus(right) && b[1] == top.Minus(right) && b[2] == top.Plus(Vec3(0, 1, 0))
    && b[3] == bottom.Plus(right) && b[4] == bottom.Minus(right) && b[5] == top.Plus(Vec3(0, -2, 0))
    && (forall i :: 0 <= i < 3 ==> Adjacent(b[i], top))
    && (forall i :: 3 <= i < 6 ==> Adjacent(b[i], bottom))
    && (forall i :: 0 <= i < 6 ==> b[i] != top && b[i] != bottom)
    && (forall i, j :: 0 <= i < j < 6 ==> b[i] != b[j])
  }

  /** The buttons sit right, left and above the upper door block, two steps
      in front of the sign, and right, left and below the lower one; the six
      are distinct and none is a door block. */
  lemma ButtonsAroundDoor(sign: Vec3, direction: Face)
    requires IsHorizontal(direction)
    ensures RightFace(direction).Some?
    ensures Surround(GetButtons(sign, direction).value, sign.Plus(Unit(direction).Scale(2)),
                     Unit(RightFace(direction).value), Unit(direction))
  {
    match direction
    case North => ButtonsFacingNorth(sign, direction);
    case East => ButtonsFacingEast(sign, direction);
    case South => ButtonsFacingSouth(sign, direction);
    case West => ButtonsFacingWest(sign, direction);
  }

  // One lemma per facing, each about a single concrete frame.

  lemma ButtonsFacingNorth(sign: Vec3, direction: Face)
    requires direction == North
    ensures Surround(GetButtons(sign, direction).value, sign.Plus(Unit(direction).Scale(2)),
                     Unit(RightFace(direction).value), Unit(direction))
  {
  }

  lemma ButtonsFacingEast(sign: Vec3, direction: Face)
    requires direction == East
    ensures Surround(GetButtons(sign, direction).value, sign.Plus(Unit(direction).Scale(2)),
                     Unit(RightFace(direction).value), Unit(direction))
  {
  }

  lemma ButtonsFacingSouth(sign: Vec3, direction: Face)
    requires direction == South
    ensures Surround(GetButtons(sign, direction).value, sign.Plus(Unit(direction).Scale(2)),
                     Unit(RightFace(direction).value), Unit(direction))
  {
  }

  lemma ButtonsFacingWest(sign: Vec3, direction: Face)
    requires direction == West
    ensures Surround(GetButtons(sign, direction).value, sign.Plus(Unit(direction).Scale(2)),
                     Unit(RightFace(direction).value), Unit(direction))
  {
  }
}
