/** The area-of-effect tool modification: its registry data and the square
    of blocks it substitutes for the single block a drill or hoe breaks. */
module AreaOfEffect {
  import opened Common
  import opened Text
  import opened ToolMods

  /** `left()` of the modification: a quarter turn counter-clockwise for the
      horizontal faces; `UP` maps to west and `DOWN` to east; any other face
      is an error (`None`). */
  function ModLeft(f: Face): (r: Option<Face>)
    ensures r.Some? <==> IsCardinal(f)
    ensures r.Some? ==> IsHorizontal(r.value)
    ensures IsHorizontal(f) ==> r == LeftFace(f)
  {
    match f
    case North => Some(West)
    case West => Some(South)
    case South => Some(East)
    case East => Some(North)
    case Up => Some(West)
    case Down => Some(East)
    case NonCardinal => None
  }

  /** `up()` of the modification: `UP` for every horizontal face, north for
      `UP`, south for `DOWN`, an error for any other face. */
  function ModUp(f: Face): (r: Option<Face>)
    ensures r.Some? <==> IsCardinal(f)
    ensures IsHorizontal(f) ==> r == Some(Up)
    ensures f == Up ==> r == Some(North)
    ensures f == Down ==> r == Some(South)
  {
    match f
    case North => Some(Up)
    case West => Some(Up)
    case South => Some(Up)
    case East => Some(Up)
    case Up => Some(North)
    case Down => Some(South)
    case NonCardinal => None
  }

  /** Four left turns of a horizontal face come back to it, and each turn
      stays horizontal. */
  lemma ModLeftCycle(f: Face)
    requires IsHorizontal(f)
    ensures var a := ModLeft(f).value;
      var b := ModLeft(a).value;
      var c := ModLeft(b).value;
      a != f && b == Opposite(f) && ModLeft(c) == Some(f)
  {
  }

  /** The two directions the square spreads along are perpendicular for
      every cardinal face the player can hit. */
  lemma LeftUpPerpendicular(f: Face)
    requires IsCardinal(f)
    ensures var o := Opposite(f);
      AxisOf(ModLeft(o).value) != AxisOf(ModUp(o).value)
      && AxisOf(ModLeft(o).value) != AxisOf(f)
      && AxisOf(ModUp(o).value) != AxisOf(f)
  {
  }

  /** The block `leftRight` steps along `l` and then `upDown` steps along
      `u` from the origin. */
  function BlockAt(origin: Vec3, l: Face, u: Face, leftRight: int, upDown: int): Vec3
    requires IsCardinal(l) && IsCardinal(u)
  {
    Relative(Relative(origin, l, leftRight), u, upDown)
  }

  /** The side of the square: the number shown twice in the display name. */
  function SideLength(radius: int): int
  {
    1 + 2 * radius
  }

  /** The blocks of one outer step: `upDown` from `-radius` to `radius`. */
  function Row(origin: Vec3, l: Face, u: Face, radius: int, leftRight: int): (row: seq<Vec3>)
    requires IsCardinal(l) && IsCardinal(u) && radius >= 0
    ensures |row| == SideLength(radius)
    ensures forall j :: 0 <= j < |row| ==> row[j] == BlockAt(origin, l, u, leftRight, j - radius)
  {
    seq(SideLength(radius), j requires 0 <= j < SideLength(radius) => BlockAt(origin, l, u, leftRight, j - radius))
  }

  /** The rows for `leftRight` from `lo` up to, not including, `hi`, one
      after the other. */
  function Rows(origin: Vec3, l: Face, u: Face, radius: int, lo: int, hi: int): seq<Vec3>
    requires IsCardinal(l) && IsCardinal(u) && radius >= 0 && lo <= hi
    decreases hi - lo
  {
    if hi == lo then [] else Rows(origin, l, u, radius, lo, hi - 1) + Row(origin, l, u, radius, hi - 1)
  }

  lemma {:induction false} RowsLength(origin: Vec3, l: Face, u: Face, radius: int, lo: int, hi: int)
    requires IsCardinal(l) && IsCardinal(u) && radius >= 0 && lo <= hi
    ensures |Rows(origin, l, u, radius, lo, hi)| == (hi - lo) * SideLength(radius)
    decreases hi - lo
  {
    if hi > lo {
      RowsLength(origin, l, u, radius, lo, hi - 1);
      assert (hi - 1 - lo) * SideLength(radius) + SideLength(radius) == (hi - lo) * SideLength(radius);
    }
  }

  lemma RowMembership(origin: Vec3, l: Face, u: Face, radius: int, leftRight: int, p: Vec3)
    requires IsCardinal(l) && IsCardinal(u) && radius >= 0
    ensures p in Row(origin, l, u, radius, leftRight)
      <==> exists j :: -radius <= j <= radius && p == BlockAt(origin, l, u, leftRight, j)
  {
    var row := Row(origin, l, u, radius, leftRight);
    if p in row {
      var k :| 0 <= k < |row| && row[k] == p;
      assert p == BlockAt(origin, l, u, leftRight, k - radius);
    }
    if exists j :: -radius <= j <= radius && p == BlockAt(origin, l, u, leftRight, j) {
      var j :| -radius <= j <= radius && p == BlockAt(origin, l, u, leftRight, j);
      assert row[j + radius] == p;
    }
  }

  lemma {:induction false} RowsMembership(origin: Vec3, l: Face, u: Face, radius: int, lo: int, hi: int, p: Vec3)
    requires IsCardinal(l) && IsCardinal(u) && radius >= 0 && lo <= hi
    ensures p in Rows(origin, l, u, radius, lo, hi)
      <==> exists i, j :: lo <= i < hi && -radius <= j <= radius && p == BlockAt(origin, l, u, i, j)
    decreases hi - lo
  {
    if hi > lo {
      var last := hi - 1;
      RowsMembership(origin, l, u, radius, lo, last, p);
      RowMembership(origin, l, u, radius, last, p);
      assert p in Rows(origin, l, u, radius, lo, hi)
        <==> p in Rows(origin, l, u, radius, lo, last) || p in Row(origin, l, u, radius, last);
    }
  }

  /** `modifyBlockList`: the incoming list is discarded and replaced by the
      blocks `leftRight` along `left()` then `upDown` along `up()` of the
      opposite of the side that was hit, for every pair in `[-radius,
      radius]`, `upDown` varying fastest. `left()` is evaluated once per
      outer step and `up()` once per inner step, so a negative radius never
      consults either and yields the empty list. The caller's list is
      cleared before `left()` or `up()` is first asked, so on the `Fail`
      path it is left empty rather than unchanged. */
  method ModifyBlockList(radius: int, interactedSide: Face, origin: Vec3) returns (r: Result<seq<Vec3>>)
    ensures r.Ok? <==> radius < 0 || IsCardinal(interactedSide)
    ensures r.Ok? && radius < 0 ==> r.value == []
    ensures r.Ok? && radius >= 0 ==>
      var l := ModLeft(Opposite(interactedSide)).value;
      var u := ModUp(Opposite(interactedSide)).value;
      r.value == Rows(origin, l, u, radius, -radius, radius + 1)
      && |r.value| == SideLength(radius) * SideLength(radius)
      && forall p :: p in r.value <==>
           exists i, j :: -radius <= i <= radius && -radius <= j <= radius && p == BlockAt(origin, l, u, i, j)
  {
    if radius < 0 {
      return Ok([]);
    }
    var neighbors: seq<Vec3> := [];
    var leftRight := -radius;
    ghost var side := Opposite(interactedSide);
    while leftRight <= radius
      invariant -radius <= leftRight <= radius + 1
      invariant !IsCardinal(side) ==> leftRight == -radius && neighbors == []
      invariant IsCardinal(side) ==> neighbors == Rows(origin, ModLeft(side).value, ModUp(side).value, radius, -radius, leftRight)
      decreases radius - leftRight
    {
      var l := ModLeft(Opposite(interactedSide));
      if l.None? {
        return Fail("Unsupported direction");
      }
      var upDown := -radius;
      ghost var done := neighbors;
      while upDown <= radius
        invariant -radius <= upDown <= radius + 1
        invariant neighbors == done + Row(origin, l.value, ModUp(side).value, radius, leftRight)[..upDown + radius]
        decreases radius - upDown
      {
        var u := ModUp(Opposite(interactedSide));
        if u.None? {
          return Fail("Unsupported direction");
        }
        neighbors := neighbors + [BlockAt(origin, l.value, u.value, leftRight, upDown)];
        upDown := upDown + 1;
      }
      leftRight := leftRight + 1;
    }
    Square(origin, ModLeft(side).value, ModUp(side).value, radius, neighbors);
    return Ok(neighbors);
  }

  /** The full square of rows: `side * side` blocks, exactly those at offsets
      within the radius on both axes. */
  lemma Square(origin: Vec3, l: Face, u: Face, radius: int, square: seq<Vec3>)
    requires IsCardinal(l) && IsCardinal(u) && radius >= 0
    requires square == Rows(origin, l, u, radius, -radius, radius + 1)
    ensures |square| == SideLength(radius) * SideLength(radius)
    ensures forall p :: p in square <==>
      exists i, j :: -radius <= i <= radius && -radius <= j <= radius && p == BlockAt(origin, l, u, i, j)
  {
    RowsLength(origin, l, u, radius, -radius, radius + 1);
    assert (radius + 1 - -radius) == SideLength(radius);
    forall p ensures p in square <==>
      exists i, j :: -radius <= i <= radius && -radius <= j <= radius && p == BlockAt(origin, l, u, i, j)
    {
      RowsMembership(origin, l, u, radius, -radius, radius + 1, p);
    }
  }

  /** Spreading along two perpendicular faces never lands on the same block
      twice, so the square holds `side * side` distinct blocks. */
  lemma BlockAtInjective(origin: Vec3, l: Face, u: Face, i: int, j: int, i2: int, j2: int)
    requires IsCardinal(l) && IsCardinal(u) && AxisOf(l) != AxisOf(u)
    requires BlockAt(origin, l, u, i, j) == BlockAt(origin, l, u, i2, j2)
    ensures i == i2 && j == j2
  {
  }

  /** The block that was hit is part of the square whenever the radius is
      not negative. */
  lemma OriginInSquare(radius: int, interactedSide: Face, origin: Vec3)
    requires radius >= 0 && IsCardinal(interactedSide)
    ensures var o := Opposite(interactedSide);
      BlockAt(origin, ModLeft(o).value, ModUp(o).value, 0, 0) == origin
      && -radius <= 0 <= radius
  {
  }

  /** The registry entry of an area-of-effect modification of the given
      radius. */
  function AOEMod(radius: int, hasItem: bool): (m: Mod)
    ensures m.cls == AOEDModClass
    ensures m.identifier == "AOE_" + FormatInt(radius)
    ensures m.incompatibleWith == {AOEDModClass, VeinMinerModClass}
    ensures m.predicates == [ClassPredicate("PowerDrill"), ClassPredicate("PowerHoe")]
  {
    Mod(AOEDModClass, "AOE_" + FormatInt(radius), {AOEDModClass, VeinMinerModClass},
        [ClassPredicate("PowerDrill"), ClassPredicate("PowerHoe")], hasItem)
  }

  /** `priority`. */
  const AOEPriority := 1

  /** Different radii get different identifiers. */
  lemma IdentifierInjective(a: int, b: int, itemA: bool, itemB: bool)
    requires IsInt32(a) && IsInt32(b) && a != b
    ensures AOEMod(a, itemA).identifier != AOEMod(b, itemB).identifier
  {
    if AOEMod(a, itemA).identifier == AOEMod(b, itemB).identifier {
      var pa, pb := "AOE_" + FormatInt(a), "AOE_" + FormatInt(b);
      assert pa[4..] == FormatInt(a) && pb[4..] == FormatInt(b);
      FormatInjective(a, b);
    }
  }

  /** Once any area-of-effect modification is installed, neither another
      one (of any radius) nor a modification of the vein-miner class can be
      added. */
  lemma AreaModsExclusive(tool: Tool, installedRadius: int, hasItem: bool, added: Mod,
                          canApplyTo: (ApplicationPredicate, string) -> bool)
    requires AOEMod(installedRadius, hasItem) in tool.mods
    requires added.cls == AOEDModClass || added.cls == VeinMinerModClass
    ensures !CanAdd(tool, ModItem(added), canApplyTo)
  {
    var j :| 0 <= j < |tool.mods| && tool.mods[j] == AOEMod(installedRadius, hasItem);
  }
}
