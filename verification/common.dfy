/** Shared vocabulary of the model: optional values, results that carry a
    failure reason, integer block positions and the block faces used by the
    multiblock, tool and shield code. */
module Common {

  /** An optional value; stands for Kotlin's nullable types. */
  datatype Option<+T> = None | Some(value: T)

  /** The outcome of an operation that can fail: Kotlin exceptions and
      `failIf`/`fail { }` command errors become `Fail` with a reason. */
  datatype Result<+T> = Ok(value: T) | Fail(reason: string)

  /** An integer block position or offset. */
  datatype Vec3 = Vec3(x: int, y: int, z: int)
  {
    function Plus(o: Vec3): Vec3 { Vec3(x + o.x, y + o.y, z + o.z) }
    function Minus(o: Vec3): Vec3 { Vec3(x - o.x, y - o.y, z - o.z) }
    function Scale(k: int): Vec3 { Vec3(k * x, k * y, k * z) }
    function Neg(): Vec3 { Vec3(-x, -y, -z) }
  }

  const Origin := Vec3(0, 0, 0)

  /** Bukkit's block faces. The six cardinal faces are named; the twelve
      diagonal faces and SELF are folded into `NonCardinal`, since every piece
      of code modelled here treats all of them alike (as an error or as "no
      such face"). */
  datatype Face = North | East | South | West | Up | Down | NonCardinal

  predicate IsCardinal(f: Face) { f != NonCardinal }
  predicate IsHorizontal(f: Face) { f == North || f == East || f == South || f == West }

  function Opposite(f: Face): (r: Face)
    ensures IsCardinal(f) <==> IsCardinal(r)
    ensures IsHorizontal(f) <==> IsHorizontal(r)
  {
    match f
    case North => South
    case South => North
    case East => West
    case West => East
    case Up => Down
    case Down => Up
    case NonCardinal => NonCardinal
  }

  /** Bukkit's (modX, modY, modZ) of a face: north is -z, east is +x,
      up is +y. `NonCardinal` has no single direction in this model. */
  function Unit(f: Face): (v: Vec3)
    requires IsCardinal(f)
    ensures v != Origin
    ensures Abs(v.x) + Abs(v.y) + Abs(v.z) == 1
  {
    match f
    case North => Vec3(0, 0, -1)
    case South => Vec3(0, 0, 1)
    case East => Vec3(1, 0, 0)
    case West => Vec3(-1, 0, 0)
    case Up => Vec3(0, 1, 0)
    case Down => Vec3(0, -1, 0)
  }

  function Abs(n: int): nat { if n < 0 then -n else n }

  /** `Block.getRelative(face, n)`: the block `n` steps along `face`. */
  function Relative(p: Vec3, f: Face, n: int): Vec3
    requires IsCardinal(f)
  {
    p.Plus(Unit(f).Scale(n))
  }

  /** Axis of a face, as Bukkit's `BlockFace.axis`. */
  datatype Axis = X | Y | Z

  function AxisOf(f: Face): Option<Axis>
  {
    match f
    case East => Some(X)
    case West => Some(X)
    case Up => Some(Y)
    case Down => Some(Y)
    case North => Some(Z)
    case South => Some(Z)
    case NonCardinal => None
  }

  /** The face a quarter turn clockwise (seen from above) of a horizontal
      face; the `rightFace` extension is assumed to behave like this and to
      have no answer for vertical faces. */
  function RightFace(f: Face): Option<Face>
  {
    match f
    case North => Some(East)
    case East => Some(South)
    case South => Some(West)
    case West => Some(North)
    case _ => None
  }

  function LeftFace(f: Face): Option<Face>
  {
    match f
    case North => Some(West)
    case West => Some(South)
    case South => Some(East)
    case East => Some(North)
    case _ => None
  }

  /** Turning right and then left (or the other way) gets back to the start,
      and the right face of a horizontal face is perpendicular to it. */
  lemma RightLeftInverse(f: Face)
    requires IsHorizontal(f)
    ensures RightFace(f).Some? && LeftFace(RightFace(f).value) == Some(f)
    ensures LeftFace(f).Some? && RightFace(LeftFace(f).value) == Some(f)
    ensures LeftFace(f) == Some(Opposite(RightFace(f).value))
    ensures AxisOf(RightFace(f).value) != AxisOf(f)
  {
  }

  predicate NoDuplicates<T(==)>(s: seq<T>)
  {
    forall i, j :: 0 <= i < j < |s| ==> s[i] != s[j]
  }

  /** A sequence without duplicates has as many elements as its set. */
  lemma {:induction false} NoDuplicatesCardinality<T>(s: seq<T>)
    requires NoDuplicates(s)
    ensures |set x | x in s| == |s|
    decreases |s|
  {
    if |s| > 0 {
      var init := s[..|s| - 1];
      NoDuplicatesCardinality(init);
      var last := s[|s| - 1];
      assert (set x | x in s) == (set x | x in init) + {last} by {
        forall x | x in s ensures x in init || x == last {
          var i :| 0 <= i < |s| && s[i] == x;
          if i < |s| - 1 { assert init[i] == x; }
        }
      }
      forall i | 0 <= i < |init| ensures init[i] != last {
        assert init[i] == s[i];
      }
      assert last !in init;
    }
  }

  /** The sequences of `ss`, one after the other. */
  function Flatten<T>(ss: seq<seq<T>>): seq<T>
  {
    if |ss| == 0 then [] else Flatten(ss[..|ss| - 1]) + ss[|ss| - 1]
  }

  lemma {:induction false} FlattenLength<T>(ss: seq<seq<T>>, m: nat)
    requires forall i :: 0 <= i < |ss| ==> |ss[i]| == m
    ensures |Flatten(ss)| == |ss| * m
  {
    if |ss| > 0 {
      FlattenLength(ss[..|ss| - 1], m);
      assert (|ss| - 1) * m + m == |ss| * m;
    }
  }

  lemma {:induction false} FlattenMembership<T>(ss: seq<seq<T>>, p: T)
    ensures p in Flatten(ss) <==> exists i :: 0 <= i < |ss| && p in ss[i]
  {
    if |ss| > 0 {
      var init := ss[..|ss| - 1];
      FlattenMembership(init, p);
      assert p in Flatten(ss) <==> p in Flatten(init) || p in ss[|ss| - 1];
      if exists i :: 0 <= i < |init| && p in init[i] {
        var i :| 0 <= i < |init| && p in init[i];
        assert ss[i] == init[i];
      }
      if exists i :: 0 <= i < |ss| && p in ss[i] {
        var i :| 0 <= i < |ss| && p in ss[i];
        if i < |init| {
          assert init[i] == ss[i];
        }
      }
    }
  }

  /** Flattening distributes over concatenation. */
  lemma {:induction false} FlattenConcat<T>(xs: seq<seq<T>>, ys: seq<seq<T>>)
    ensures Flatten(xs + ys) == Flatten(xs) + Flatten(ys)
  {
    if |ys| > 0 {
      var init := ys[..|ys| - 1];
      FlattenConcat(xs, init);
      assert (xs + ys)[..|xs + ys| - 1] == xs + init;
    } else {
      assert xs + ys == xs;
    }
  }
}
