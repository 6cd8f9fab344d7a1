/** The tri-turret multiblock's numbers: the vertical factor of its top and
    bottom variants, its three fire points, its display name and its pilot
    offsets. */
module TriTurret {
  import opened Common

  datatype Variant = Top | Bottom

  /** `getYFactor`: +1 for the top turret, -1 for the bottom one. */
  function YFactor(v: Variant): (k: int)
    ensures k == 1 || k == -1
    ensures k == 1 <==> v == Top
  {
    match v
    case Top => 1
    case Bottom => -1
  }

  /** `buildFirePointOffsets` for a vertical factor. */
  function FirePointOffsets(yFactor: int): (ps: seq<Vec3>)
    ensures |ps| == 3
    ensures forall i :: 0 <= i < 3 ==> ps[i].y == yFactor * 4
    ensures ps[0].x == -2 && ps[0].z == 3
    ensures ps[1].x == 0 && ps[1].z == 4
    ensures ps[2].x == 2 && ps[2].z == 3
  {
    [Vec3(-2, yFactor * 4, 3), Vec3(0, yFactor * 4, 4), Vec3(2, yFactor * 4, 3)]
  }

  function MirrorX(p: Vec3): Vec3 { Vec3(-p.x, p.y, p.z) }
  function MirrorY(p: Vec3): Vec3 { Vec3(p.x, -p.y, p.z) }

  /** The fire points are symmetric about the plane x = 0: mirroring them
      reverses their order; they are pairwise distinct, and the middle one
      sits furthest forward. */
  lemma FirePointsSymmetric(yFactor: int)
    ensures var ps := FirePointOffsets(yFactor);
      (forall i :: 0 <= i < 3 ==> MirrorX(ps[i]) == ps[2 - i])
      && ps[0] != ps[1] && ps[1] != ps[2] && ps[0] != ps[2]
      && ps[1].x == 0 && ps[1].z > ps[0].z && ps[1].z > ps[2].z
  {
  }

  /** The bottom turret's fire points are the top turret's mirrored in the
      horizontal plane. */
  lemma BottomMirrorsTop()
    ensures forall i :: 0 <= i < 3 ==>
      FirePointOffsets(YFactor(Bottom))[i] == MirrorY(FirePointOffsets(YFactor(Top))[i])
  {
  }

  /** `displayName`: "Top" exactly when the factor is 1, "Bottom" for any
      other factor. */
  function DisplayName(yFactor: int): (name: string)
    ensures yFactor == 1 <==> name == "Tri Turret (Top)"
    ensures yFactor != 1 <==> name == "Tri Turret (Bottom)"
  {
    "Tri Turret (" + (if yFactor == 1 then "Top" else "Bottom") + ")"
  }

  /** The two variants are named apart. */
  lemma DisplayNamesDiffer()
    ensures DisplayName(YFactor(Top)) != DisplayName(YFactor(Bottom))
  {
  }

  /** `getPilotOffset`. */
  function PilotOffset(v: Variant): (p: Vec3)
    ensures p.x == 0 && p.z == 2
    ensures v == Top ==> p.y > 0
    ensures v == Top ==> p.y == 3
    ensures v == Bottom ==> p.y == -4
  {
    match v
    case Top => Vec3(0, 3, 2)
    case Bottom => Vec3(0, -4, 2)
  }

  /** Unlike the fire points, the pilot offsets are not mirror images: the
      bottom pilot sits one block further from the centre than the top one. */
  lemma PilotOffsetsNotMirrored()
    ensures PilotOffset(Bottom) != MirrorY(PilotOffset(Top))
    ensures PilotOffset(Bottom).y == -PilotOffset(Top).y - 1
  {
  }
}
