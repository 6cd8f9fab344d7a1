/** The box shield subsystem: its power setter, the "width,height,length"
    dimensions read from the sign, the boxes it caches for the ship's facing
    and its three rotations, and the containment test. */
module BoxShield {
  import opened Common
  import opened Text

  /** Kotlin's `Int` division, which truncates toward zero (Dafny's `/`
      rounds toward negative infinity for negative dividends). */
  function TDiv(a: int, b: int): (q: int)
    requires b > 0
    ensures Abs(q * b) <= Abs(a) && Abs(a) - Abs(q * b) < b
    ensures (a >= 0 ==> q >= 0) && (a <= 0 ==> q <= 0)
  {
    TDivFacts(if a >= 0 then a else -a, b);
    if a >= 0 then a / b else -((-a) / b)
  }

  lemma TDivFacts(n: nat, b: int)
    requires b > 0
    ensures n / b >= 0 && 0 <= (n / b) * b <= n < (n / b) * b + b
    ensures (-(n / b)) * b == -((n / b) * b)
  {
    var m: nat := n / b;
    var r := n % b;
    assert n == m * b + r && 0 <= r < b;
    NatProduct(m, b);
    NegProduct(m, b);
  }

  lemma NatProduct(m: nat, b: nat)
    ensures m * b >= 0
  {
  }

  lemma NegProduct(m: int, b: int)
    ensures (-m) * b == -(m * b)
  {
  }

  /** `power = value`: stored as `value.coerceIn(0, maxPower)`, which throws
      when the range is empty. */
  function ClampPower(value: int, maxPower: int): (r: Result<int>)
    ensures r.Ok? <==> maxPower >= 0
    ensures r.Ok? ==> 0 <= r.value <= maxPower
    ensures r.Ok? ==> (r.value == value <==> 0 <= value <= maxPower)
    ensures r.Ok? && value < 0 ==> r.value == 0
    ensures r.Ok? && value > maxPower ==> r.value == maxPower
  {
    if maxPower < 0 then Fail("cannot coerce value to an empty range")
    else if value < 0 then Ok(0)
    else if value > maxPower then Ok(maxPower)
    else Ok(value)
  }

  /** Clamping twice is clamping once, and clamping never reverses the
      order of two values. */
  lemma ClampPowerStable(a: int, b: int, maxPower: int)
    requires maxPower >= 0
    ensures ClampPower(ClampPower(a, maxPower).value, maxPower) == ClampPower(a, maxPower)
    ensures a <= b ==> ClampPower(a, maxPower).value <= ClampPower(b, maxPower).value
  {
  }

  datatype Dimensions = Dimensions(width: int, height: int, length: int)

  /** `map { it.toInt() }`: all pieces must parse. */
  function ParseAll(parts: seq<string>): (r: Option<seq<int>>)
    ensures r.Some? ==> |r.value| == |parts|
    ensures r.Some? ==> forall i :: 0 <= i < |parts| ==> ParseInt(parts[i]) == Some(r.value[i])
    ensures r.Some? <==> forall i :: 0 <= i < |parts| ==> ParseInt(parts[i]).Some?
  {
    if |parts| == 0 then Some([])
    else
      var v := ParseInt(parts[0]);
      var vs := ParseAll(parts[1..]);
      if v.Some? && vs.Some? then Some([v.value] + vs.value) else None
  }

  /** The dimension parse of the shield's constructor: commas become spaces,
      the line is split on spaces, every piece must be an `Int`, and the
      first three are width, height and length. */
  function ParseDimensions(line: string): (r: Result<Dimensions>)
    ensures var parts := Split(Replace(line, ",", " "), ' ');
      (r.Ok? <==> |parts| >= 3 && forall i :: 0 <= i < |parts| ==> ParseInt(parts[i]).Some?)
      && (r.Ok? ==> r.value == Dimensions(ParseInt(parts[0]).value, ParseInt(parts[1]).value, ParseInt(parts[2]).value))
  {
    var parts := Split(Replace(line, ",", " "), ' ');
    match ParseAll(parts)
    case None => Fail("a dimension is not a number")
    case Some(values) =>
      if |values| < 3 then Fail("fewer than three dimensions")
      else Ok(Dimensions(values[0], values[1], values[2]))
  }

  /** A sign line "w,h,l" yields width w, height h and length l. */
  lemma ParseDimensionsOfSign(w: int, h: int, l: int)
    requires IsInt32(w) && IsInt32(h) && IsInt32(l)
    ensures ParseDimensions(FormatInt(w) + "," + FormatInt(h) + "," + FormatInt(l)) == Ok(Dimensions(w, h, l))
  {
    var a, b, c := FormatInt(w), FormatInt(h), FormatInt(l);
    FormatIntChars(w, ',');
    FormatIntChars(h, ',');
    FormatIntChars(l, ',');
    FormatIntChars(w, ' ');
    FormatIntChars(h, ' ');
    FormatIntChars(l, ' ');
    CommasToSpaces(a, b, c);
    SplitThree(a, b, c);
    ParseFormat(w);
    ParseFormat(h);
    ParseFormat(l);
    ParseThree(a, b, c);
  }

  lemma CommasToSpaces(a: string, b: string, c: string)
    requires ',' !in a && ',' !in b && ',' !in c
    ensures Replace(a + "," + b + "," + c, ",", " ") == a + " " + b + " " + c
  {
    ReplaceCharConcat(a + "," + b + ",", c, ',', ' ');
    ReplaceCharConcat(a + "," + b, ",", ',', ' ');
    ReplaceCharConcat(a + ",", b, ',', ' ');
    ReplaceCharConcat(a, ",", ',', ' ');
    ReplaceCharAbsent(a, ',', ' ');
    ReplaceCharAbsent(b, ',', ' ');
    ReplaceCharAbsent(c, ',', ' ');
    ReplaceWhole(",", " ");
  }

  lemma SplitThree(a: string, b: string, c: string)
    requires ' ' !in a && ' ' !in b && ' ' !in c
    ensures Split(a + " " + b + " " + c, ' ') == [a, b, c]
  {
    var bc := b + [' '] + c;
    assert a + " " + b + " " + c == a + [' '] + bc;
    SplitAfterPiece(a, bc, ' ');
    SplitAfterPiece(b, c, ' ');
    assert Split(c, ' ') == [c];
    assert [a] + ([b] + [c]) == [a, b, c];
  }

  lemma ParseThree(a: string, b: string, c: string)
    requires ParseInt(a).Some? && ParseInt(b).Some? && ParseInt(c).Some?
    ensures ParseAll([a, b, c]) == Some([ParseInt(a).value, ParseInt(b).value, ParseInt(c).value])
  {
    var x, y, z := ParseInt(a).value, ParseInt(b).value, ParseInt(c).value;
    var none: seq<string> := [];
    assert ParseAll(none) == Some([]);
    ParseAllCons(c, none);
    assert [c] + none == [c];
    assert ParseAll([c]) == Some([z] + ParseAll(none).value);
    assert [z] + ParseAll(none).value == [z];
    ParseAllCons(b, [c]);
    assert [b] + [c] == [b, c];
    assert ParseAll([b, c]) == Some([y] + [z]);
    ParseAllCons(a, [b, c]);
    assert [a] + [b, c] == [a, b, c];
    assert ParseAll([a, b, c]) == Some([x] + ([y] + [z]));
    assert [x] + ([y] + [z]) == [x, y, z];
  }

  lemma ParseAllCons(x: string, rest: seq<string>)
    ensures ParseAll([x] + rest)
         == if ParseInt(x).Some? && ParseAll(rest).Some? then Some([ParseInt(x).value] + ParseAll(rest).value) else None
  {
    var p := [x] + rest;
    assert p[0] == x && p[1..] == rest;
  }

  /** A box relative to the shield's position, `min` and `max` inclusive. */
  datatype Box = Box(min: Vec3, max: Vec3)

  /** `cacheShape` for one face: the width runs along the face's right
      side, the length along the face itself, the height vertically; each
      half-extent is the Kotlin quotient by two. A face with no right face
      is an error. */
  function ShapeFor(key: Face, dims: Dimensions): (r: Result<Box>)
    ensures r.Ok? <==> IsHorizontal(key)
    ensures r.Ok? ==> r.value.min == r.value.max.Neg()
    ensures r.Ok? ==> r.value.max.y == TDiv(dims.height, 2)
    ensures r.Ok? && AxisOf(key) == Some(Z) ==>
      r.value.max.x == TDiv(dims.width, 2) && r.value.max.z == TDiv(dims.length, 2)
    ensures r.Ok? && AxisOf(key) == Some(X) ==>
      r.value.max.x == TDiv(dims.length, 2) && r.value.max.z == TDiv(dims.width, 2)
  {
    match RightFace(key)
    case None => Fail("no right face")
    case Some(right) =>
      HorizontalUnits(key);
      var dx := TDiv(dims.width, 2) * Abs(Unit(right).x) + TDiv(dims.length, 2) * Abs(Unit(key).x);
      var dy := TDiv(dims.height, 2);
      var dz := TDiv(dims.width, 2) * Abs(Unit(right).z) + TDiv(dims.length, 2) * Abs(Unit(key).z);
      Ok(Box(Vec3(-dx, -dy, -dz), Vec3(dx, dy, dz)))
  }

  /** The axis magnitudes `cacheShape` reads: a face along Z has a right
      face along X, and the other way round. */
  lemma HorizontalUnits(key: Face)
    requires IsHorizontal(key)
    ensures var right := RightFace(key).value;
      IsHorizontal(right) && AxisOf(key) != AxisOf(right)
      && (AxisOf(key) == Some(Z) ==> Abs(Unit(right).x) == 1 && Abs(Unit(right).z) == 0 && Abs(Unit(key).x) == 0 && Abs(Unit(key).z) == 1)
      && (AxisOf(key) == Some(X) ==> Abs(Unit(right).x) == 0 && Abs(Unit(right).z) == 1 && Abs(Unit(key).x) == 1 && Abs(Unit(key).z) == 0)
  {
    match key
    case North =>
    case East =>
    case South =>
    case West =>
  }

  /** The four faces the constructor caches shapes under: the face and its
      right, left and opposite faces are the four horizontal faces. */
  lemma RotatedFaces(face: Face)
    requires IsHorizontal(face)
    ensures {face, RightFace(face).value, LeftFace(face).value, Opposite(face)} == {North, East, South, West}
  {
    match face
    case North =>
    case East =>
    case South =>
    case West =>
  }

  /** The constructor's four `cacheShape` calls: the face itself, then its
      right, left and opposite faces, each stored under the rotated face. */
  function CacheShapes(face: Face, dims: Dimensions): (r: Result<map<Face, Box>>)
    ensures r.Ok? <==> IsHorizontal(face)
    ensures r.Ok? ==> r.value.Keys == {North, East, South, West}
    ensures r.Ok? ==> forall f :: f in r.value ==> ShapeFor(f, dims) == Ok(r.value[f])
  {
    if !IsHorizontal(face) then Fail("no right face")
    else
      var right := RightFace(face).value;
      var left := LeftFace(face).value;
      var opposite := Opposite(face);
      RotatedFaces(face);
      var sf, sr, sl, so := ShapeFor(face, dims).value, ShapeFor(right, dims).value,
        ShapeFor(left, dims).value, ShapeFor(opposite, dims).value;
      var m := map[face := sf][right := sr][left := sl][opposite := so];
      FourUpdates(m, face, right, left, opposite, sf, sr, sl, so);
      Ok(m)
  }

  /** Four map updates in a row: the keys are the four keys, and a key
      updated more than once keeps its last value. */
  lemma FourUpdates<V>(m: map<Face, V>, a: Face, b: Face, c: Face, d: Face, va: V, vb: V, vc: V, vd: V)
    requires m == map[a := va][b := vb][c := vc][d := vd]
    ensures m.Keys == {a, b, c, d}
    ensures forall f :: f in m ==> m[f] == (if f == d then vd else if f == c then vc else if f == b then vb else va)
  {
  }

  /** A face and its opposite share one box, and so do its right and left
      faces. */
  lemma OppositeFacesShareBox(face: Face, dims: Dimensions)
    requires IsHorizontal(face)
    ensures var m := CacheShapes(face, dims).value;
      m[face] == m[Opposite(face)]
      && m[RightFace(face).value] == m[LeftFace(face).value]
  {
  }

  /** The part of the subsystem the containment test reads. */
  datatype Shield = Shield(world: int, pos: Vec3, face: Face, shapes: map<Face, Box>)

  /** `containsPosition`: a position in another world is never inside; a
      face with no cached box is an error (`getValue`); otherwise all six
      bounds are inclusive, measured from the shield's position. */
  function ContainsPosition(s: Shield, world: int, p: Vec3): (r: Result<bool>)
    ensures world != s.world ==> r == Ok(false)
    ensures world == s.world ==> (r.Ok? <==> s.face in s.shapes)
  {
    if s.world != world then Ok(false)
    else if s.face !in s.shapes then Fail("no shape cached for the face")
    else
      var b := s.shapes[s.face];
      var l := p.Minus(s.pos);
      Ok(l.x >= b.min.x && l.y >= b.min.y && l.z >= b.min.z && l.x <= b.max.x && l.y <= b.max.y && l.z <= b.max.z)
  }

  /** For a shield whose boxes come from its constructor, and whatever
      horizontal face the ship has turned to, containment is answered and
      holds exactly when each offset is within the half-extents. */
  lemma ContainsWithinHalfExtents(s: Shield, built: Face, dims: Dimensions, p: Vec3)
    requires IsHorizontal(built) && IsHorizontal(s.face)
    requires CacheShapes(built, dims) == Ok(s.shapes)
    ensures var b := s.shapes[s.face];
      var l := p.Minus(s.pos);
      ContainsPosition(s, s.world, p)
        == Ok(Abs(l.x) <= b.max.x && Abs(l.y) <= b.max.y && Abs(l.z) <= b.max.z)
  {
    assert s.face in s.shapes;
    var b := s.shapes[s.face];
    assert ShapeFor(s.face, dims) == Ok(b);
    CenteredBounds(b, p.Minus(s.pos));
  }

  lemma CenteredBounds(b: Box, l: Vec3)
    requires b.min == b.max.Neg()
    ensures (l.x >= b.min.x && l.y >= b.min.y && l.z >= b.min.z && l.x <= b.max.x && l.y <= b.max.y && l.z <= b.max.z)
        == (Abs(l.x) <= b.max.x && Abs(l.y) <= b.max.y && Abs(l.z) <= b.max.z)
  {
  }
}
