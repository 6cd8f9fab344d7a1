/** The AI's section-grid pathfinding: chunk sections (16x16x16 cubes)
    are nodes, navigable when empty; the model covers the section centre,
    the navigability scan, the search of a batch of sections, the cube of
    tracked sections around the ship, the 26-neighbourhood and the greedy
    walk toward a destination section. */
module Pathfinding {
  import opened Common
  import opened Text
  import opened BlockAccess

  const MaxAStarIterations := 20

  /** A section node: the world it belongs to (by identity), its section
      coordinates (chunk x, section index y, chunk z) and whether it can be
      flown through. */
  datatype SectionNode = SectionNode(world: int, location: Vec3, navigable: bool)

  /** `SectionNode.center`, with Kotlin's 32-bit `shl` and additions. */
  function Center(node: SectionNode, minHeight: int): (c: Vec3)
    requires IsInt32(node.location.x) && IsInt32(node.location.y) && IsInt32(node.location.z) && IsInt32(minHeight)
    ensures IsInt32(c.x) && IsInt32(c.y) && IsInt32(c.z)
  {
    var l := node.location;
    Vec3(Wrap32(Wrap32(l.x * 16) + 8),
         Wrap32(Wrap32(Wrap32(l.y * 16) + minHeight) + 8),
         Wrap32(Wrap32(l.z * 16) + 8))
  }

  /** Away from 32-bit overflow the centre is the middle block of the
      section: local coordinate 8 in each direction, and splitting it back
      into chunk and local coordinates gives the section it came from. */
  lemma CenterInOwnSection(node: SectionNode, minHeight: int)
    requires IsInt32(node.location.x) && IsInt32(node.location.y) && IsInt32(node.location.z) && IsInt32(minHeight)
    requires IsInt32(node.location.x * 16 + 8) && IsInt32(node.location.z * 16 + 8)
    requires IsInt32(node.location.y * 16) && IsInt32(node.location.y * 16 + minHeight)
    requires IsInt32(node.location.y * 16 + minHeight + 8)
    ensures var c := Center(node, minHeight);
      c == Vec3(16 * node.location.x + 8, 16 * node.location.y + minHeight + 8, 16 * node.location.z + 8)
      && Shr4(c.x) == node.location.x && And15(c.x) == 8
      && Shr4(c.z) == node.location.z && And15(c.z) == 8
      && (c.y - minHeight) / 16 == node.location.y
  {
    var l := node.location;
    assert IsInt32(l.x * 16) && IsInt32(l.z * 16);
    var c := Center(node, minHeight);
    ChunkSplit(c.x);
    ChunkSplit(c.z);
  }

  /** Entry `i` of the `ADJACENT` enum, in declaration order (`NORTH`,
      `UP_NORTH`, ..., `UP`, `DOWN`). */
  function AdjacentEntry(i: int): Vec3
  {
    match i
    case 0 => Vec3(0, 0, -1)
    case 1 => Vec3(0, 1, -1)
    case 2 => Vec3(0, -1, -1)
    case 3 => Vec3(1, 0, -1)
    case 4 => Vec3(-1, 0, -1)
    case 5 => Vec3(1, 1, -1)
    case 6 => Vec3(-1, 1, -1)
    case 7 => Vec3(1, -1, -1)
    case 8 => Vec3(-1, -1, -1)
    case 9 => Vec3(1, 0, 0)
    case 10 => Vec3(1, 1, 0)
    case 11 => Vec3(1, -1, 0)
    case 12 => Vec3(0, 0, 1)
    case 13 => Vec3(0, 1, 1)
    case 14 => Vec3(0, -1, 1)
    case 15 => Vec3(1, 0, 1)
    case 16 => Vec3(-1, 0, 1)
    case 17 => Vec3(1, 1, 1)
    case 18 => Vec3(-1, 1, 1)
    case 19 => Vec3(1, -1, 1)
    case 20 => Vec3(-1, -1, 1)
    case 21 => Vec3(-1, 0, 0)
    case 22 => Vec3(-1, 1, 0)
    case 23 => Vec3(-1, -1, 0)
    case 24 => Vec3(0, 1, 0)
    case 25 => Vec3(0, -1, 0)
    case _ => Origin
  }

  /** The `ADJACENT` table. */
  const Adjacent: seq<Vec3> := seq(26, i requires 0 <= i < 26 => AdjacentEntry(i))

  /** Two section positions touch: they differ, by at most one in each
      coordinate. */
  predicate Touching(a: Vec3, b: Vec3)
  {
    a != b && -1 <= a.x - b.x <= 1 && -1 <= a.y - b.y <= 1 && -1 <= a.z - b.z <= 1
  }

  /** Where an offset sits in the table (-1 when it is not there). */
  function AdjacentIndex(d: Vec3): int
  {
    match (d.x, d.y, d.z)
    case (0, 0, -1) => 0
    case (0, 1, -1) => 1
    case (0, -1, -1) => 2
    case (1, 0, -1) => 3
    case (-1, 0, -1) => 4
    case (1, 1, -1) => 5
    case (-1, 1, -1) => 6
    case (1, -1, -1) => 7
    case (-1, -1, -1) => 8
    case (1, 0, 0) => 9
    case (1, 1, 0) => 10
    case (1, -1, 0) => 11
    case (0, 0, 1) => 12
    case (0, 1, 1) => 13
    case (0, -1, 1) => 14
    case (1, 0, 1) => 15
    case (-1, 0, 1) => 16
    case (1, 1, 1) => 17
    case (-1, 1, 1) => 18
    case (1, -1, 1) => 19
    case (-1, -1, 1) => 20
    case (-1, 0, 0) => 21
    case (-1, 1, 0) => 22
    case (-1, -1, 0) => 23
    case (0, 1, 0) => 24
    case (0, -1, 0) => 25
    case _ => -1
  }

  lemma EntryThenIndex(i: int)
    requires 0 <= i < 26
    ensures AdjacentIndex(AdjacentEntry(i)) == i
  {
  }

  lemma IndexThenEntry(d: Vec3)
    requires Touching(d, Origin)
    ensures 0 <= AdjacentIndex(d) < 26 && AdjacentEntry(AdjacentIndex(d)) == d
  {
  }

  /** The table has 26 distinct entries, and an offset is in it exactly
      when it leads to a touching position: the table is the whole
      3x3x3 cube around a section, the section itself excepted. */
  lemma AdjacentIsNeighbourhood(d: Vec3)
    ensures |Adjacent| == 26 && NoDuplicates(Adjacent)
    ensures d in Adjacent <==> Touching(d, Origin)
  {
    forall i, j | 0 <= i < j < 26 ensures Adjacent[i] != Adjacent[j] {
      EntryThenIndex(i);
      EntryThenIndex(j);
    }
    if Touching(d, Origin) {
      IndexThenEntry(d);
      assert Adjacent[AdjacentIndex(d)] == d;
    }
    if d in Adjacent {
      var i :| 0 <= i < 26 && Adjacent[i] == d;
      EntryThenIndex(i);
      assert Touching(d, Origin);
    }
  }

  /** `getNeighbors`: the location moved by each entry of the table. */
  function GetNeighbors(location: Vec3): (r: set<Vec3>)
    ensures forall p :: p in r <==> Touching(p, location)
    ensures |r| == 26
  {
    var shifted := seq(|Adjacent|, i requires 0 <= i < |Adjacent| => location.Plus(Adjacent[i]));
    forall p ensures p in shifted <==> Touching(p, location) {
      AdjacentIsNeighbourhood(p.Minus(location));
      if p in shifted {
        var i :| 0 <= i < |shifted| && shifted[i] == p;
        assert Adjacent[i] == p.Minus(location);
      }
      if Touching(p, location) {
        var d := p.Minus(location);
        assert Touching(d, Origin);
        var i :| 0 <= i < |Adjacent| && Adjacent[i] == d;
        assert shifted[i] == p;
      }
    }
    AdjacentIsNeighbourhood(Origin);
    forall i, j | 0 <= i < j < |shifted| ensures shifted[i] != shifted[j] {
      assert Adjacent[i] != Adjacent[j];
    }
    NoDuplicatesCardinality(shifted);
    set p | p in shifted
  }

  /** A level chunk, as the scan sees it: its position and, per section
      index, whether the section holds only air. */
  datatype LevelChunk = LevelChunk(pos: ChunkPos, onlyAir: seq<bool>)

  /** Whether the section at index `y` of the chunk exists and holds only
      air (`getOrNull`, then `hasOnlyAir`). */
  predicate SectionNavigable(chunk: LevelChunk, y: int)
  {
    0 <= y < |chunk.onlyAir| && chunk.onlyAir[y]
  }

  /** `checkNavigability`: one node per requested section index, at the
      chunk's own position, navigable exactly when the section exists and
      holds only air. */
  function CheckNavigability(world: int, chunk: LevelChunk, yRange: seq<int>): (r: set<SectionNode>)
    ensures forall n :: n in r <==>
      n.world == world && n.location.x == chunk.pos.x && n.location.z == chunk.pos.z
      && n.location.y in yRange && n.navigable == SectionNavigable(chunk, n.location.y)
  {
    if |yRange| == 0 then {}
    else
      var y := yRange[0];
      var pos := Vec3(chunk.pos.x, y, chunk.pos.z);
      var node := if 0 <= y < |chunk.onlyAir| then SectionNode(world, pos, chunk.onlyAir[y])
                  else SectionNode(world, pos, false);
      assert forall v :: v in yRange <==> v == y || v in yRange[1..];
      {node} + CheckNavigability(world, chunk, yRange[1..])
  }

  /** Where chunks come from: those already loaded, and `getChunk`, which
      loads (or generates) any other. */
  datatype ChunkSource = ChunkSource(loaded: map<ChunkPos, LevelChunk>, load: ChunkPos -> LevelChunk)

  /** `getChunkIfLoaded(x, z) ?: if (loadChunks) getChunk(x, z) else null`. */
  function ChunkFor(src: ChunkSource, pos: ChunkPos, loadChunks: bool): (r: Option<LevelChunk>)
    ensures r.None? <==> pos !in src.loaded && !loadChunks
  {
    if pos in src.loaded then Some(src.loaded[pos])
    else if loadChunks then Some(src.load(pos))
    else None
  }

  /** Every chunk the source hands out sits at the position it was asked
      for. */
  ghost predicate PositionsAgree(src: ChunkSource)
  {
    (forall p :: p in src.loaded ==> src.loaded[p].pos == p)
    && (forall p :: src.load(p).pos == p)
  }

  function ColumnOf(s: Vec3): ChunkPos { ChunkPos(s.x, s.z) }

  /** The keys of `groupBy { ChunkPos(it.x, it.z) }`: the distinct columns,
      in order of first appearance. */
  function Columns(sections: seq<Vec3>): (r: seq<ChunkPos>)
    ensures NoDuplicates(r)
    ensures forall c :: c in r <==> exists s :: s in sections && ColumnOf(s) == c
  {
    ColumnsFrom([], sections)
  }

  function ColumnsFrom(acc: seq<ChunkPos>, rest: seq<Vec3>): (r: seq<ChunkPos>)
    requires NoDuplicates(acc)
    ensures NoDuplicates(r)
    ensures forall c :: c in r <==> c in acc || exists s :: s in rest && ColumnOf(s) == c
    decreases |rest|
  {
    if |rest| == 0 then acc
    else
      var c := ColumnOf(rest[0]);
      var next := if c in acc then acc else acc + [c];
      assert forall s :: s in rest <==> s == rest[0] || s in rest[1..];
      ColumnsFrom(next, rest[1..])
  }

  /** The list grouped under a column: its sections, in order. */
  function SectionsIn(sections: seq<Vec3>, column: ChunkPos): (r: seq<Vec3>)
    ensures forall s :: s in r <==> s in sections && ColumnOf(s) == column
  {
    if |sections| == 0 then []
    else (if ColumnOf(sections[0]) == column then [sections[0]] else []) + SectionsIn(sections[1..], column)
  }

  function Heights(ss: seq<Vec3>): (ys: seq<int>)
    ensures |ys| == |ss|
    ensures forall i :: 0 <= i < |ss| ==> ys[i] == ss[i].y
  {
    seq(|ss|, i requires 0 <= i < |ss| => ss[i].y)
  }

  /** The nodes `searchSections` contributes for one column, as written:
      when the chunk is unavailable it marks unnavigable every section of the
      whole request, not only those of this column. */
  function ColumnNodesAsWritten(world: int, sections: seq<Vec3>, column: ChunkPos, src: ChunkSource, loadChunks: bool): set<SectionNode>
  {
    match ChunkFor(src, column, loadChunks)
    case None => set s | s in sections :: SectionNode(world, s, false)
    case Some(chunk) => CheckNavigability(world, chunk, Heights(SectionsIn(sections, column)))
  }

  /** The nodes for one column with the evident intent: an unavailable
      chunk marks only its own sections unnavigable. */
  function ColumnNodes(world: int, sections: seq<Vec3>, column: ChunkPos, src: ChunkSource, loadChunks: bool): set<SectionNode>
  {
    match ChunkFor(src, column, loadChunks)
    case None => set s | s in SectionsIn(sections, column) :: SectionNode(world, s, false)
    case Some(chunk) => CheckNavigability(world, chunk, Heights(SectionsIn(sections, column)))
  }

  /** `searchSections` as written: the union over the grouped columns. It
      holds every node of the corrected search, and no more when every
      requested chunk is available. */
  function SearchSectionsAsWritten(world: int, sections: seq<Vec3>, src: ChunkSource, loadChunks: bool): (r: set<SectionNode>)
    ensures SearchSections(world, sections, src, loadChunks) <= r
    ensures !SomeChunkMissing(sections, src, loadChunks) ==> r == SearchSections(world, sections, src, loadChunks)
  {
    var cols := Columns(sections);
    assert !SomeChunkMissing(sections, src, loadChunks) ==> forall i :: 0 <= i < |cols| ==> ChunkFor(src, cols[i], loadChunks).Some? by {
      forall i | 0 <= i < |cols| && !SomeChunkMissing(sections, src, loadChunks) ensures ChunkFor(src, cols[i], loadChunks).Some? {
        assert cols[i] in cols;
        var s :| s in sections && ColumnOf(s) == cols[i];
      }
    }
    UnionWithin(world, sections, cols, src, loadChunks);
    UnionAsWritten(world, sections, cols, src, loadChunks)
  }

  lemma {:induction false} UnionWithin(world: int, sections: seq<Vec3>, cols: seq<ChunkPos>, src: ChunkSource, loadChunks: bool)
    ensures Union(world, sections, cols, src, loadChunks) <= UnionAsWritten(world, sections, cols, src, loadChunks)
    ensures (forall i :: 0 <= i < |cols| ==> ChunkFor(src, cols[i], loadChunks).Some?) ==>
      Union(world, sections, cols, src, loadChunks) == UnionAsWritten(world, sections, cols, src, loadChunks)
  {
    if |cols| > 0 {
      UnionWithin(world, sections, cols[1..], src, loadChunks);
      ColumnNodesWithin(world, sections, cols[0], src, loadChunks);
      assert (forall i :: 0 <= i < |cols| ==> ChunkFor(src, cols[i], loadChunks).Some?) ==>
        (forall i :: 0 <= i < |cols[1..]| ==> ChunkFor(src, cols[1..][i], loadChunks).Some?) by {
        forall i | 0 <= i < |cols[1..]| ensures cols[1..][i] == cols[i + 1] { }
      }
    }
  }

  function UnionAsWritten(world: int, sections: seq<Vec3>, cols: seq<ChunkPos>, src: ChunkSource, loadChunks: bool): (r: set<SectionNode>)
    ensures forall n :: n in r <==> exists i :: 0 <= i < |cols| && n in ColumnNodesAsWritten(world, sections, cols[i], src, loadChunks)
  {
    if |cols| == 0 then {}
    else
      var rest := UnionAsWritten(world, sections, cols[1..], src, loadChunks);
      ColumnNodesAsWritten(world, sections, cols[0], src, loadChunks) + rest
  }

  /** A column's nodes as written include the corrected ones, and equal
      them when its chunk is available. */
  lemma ColumnNodesWithin(world: int, sections: seq<Vec3>, column: ChunkPos, src: ChunkSource, loadChunks: bool)
    ensures ColumnNodes(world, sections, column, src, loadChunks) <= ColumnNodesAsWritten(world, sections, column, src, loadChunks)
    ensures ChunkFor(src, column, loadChunks).Some? ==>
      ColumnNodes(world, sections, column, src, loadChunks) == ColumnNodesAsWritten(world, sections, column, src, loadChunks)
  {
  }

  /** `searchSections` with the column's own list used for unavailable
      chunks: each requested section is answered with exactly one node, the
      one `NodeFor` describes, and nothing else. */
  function SearchSections(world: int, sections: seq<Vec3>, src: ChunkSource, loadChunks: bool): (r: set<SectionNode>)
    ensures PositionsAgree(src) ==> forall n :: n in r <==>
      n.location in sections && n == NodeFor(world, n.location, src, loadChunks)
  {
    var r := Union(world, sections, Columns(sections), src, loadChunks);
    assert PositionsAgree(src) ==> forall n :: n in r <==>
      n.location in sections && n == NodeFor(world, n.location, src, loadChunks) by {
      if PositionsAgree(src) {
        forall n ensures n in r <==> n.location in sections && n == NodeFor(world, n.location, src, loadChunks) {
          UnionExactly(world, sections, src, loadChunks, n);
        }
      }
    }
    r
  }

  function Union(world: int, sections: seq<Vec3>, cols: seq<ChunkPos>, src: ChunkSource, loadChunks: bool): (r: set<SectionNode>)
    ensures forall n :: n in r <==> exists i :: 0 <= i < |cols| && n in ColumnNodes(world, sections, cols[i], src, loadChunks)
  {
    if |cols| == 0 then {}
    else
      var rest := Union(world, sections, cols[1..], src, loadChunks);
      ColumnNodes(world, sections, cols[0], src, loadChunks) + rest
  }

  /** The node a requested section should get: unnavigable when its chunk is
      unavailable, otherwise navigable exactly when the section exists and
      holds only air. */
  function NodeFor(world: int, s: Vec3, src: ChunkSource, loadChunks: bool): SectionNode
  {
    match ChunkFor(src, ColumnOf(s), loadChunks)
    case None => SectionNode(world, s, false)
    case Some(chunk) => SectionNode(world, s, SectionNavigable(chunk, s.y))
  }

  lemma ColumnNodesExactly(world: int, sections: seq<Vec3>, column: ChunkPos, src: ChunkSource, loadChunks: bool, n: SectionNode)
    requires PositionsAgree(src)
    ensures n in ColumnNodes(world, sections, column, src, loadChunks)
      <==> n.location in sections && ColumnOf(n.location) == column && n == NodeFor(world, n.location, src, loadChunks)
  {
    var own := SectionsIn(sections, column);
    match ChunkFor(src, column, loadChunks)
    case None =>
    case Some(chunk) =>
      assert chunk.pos == column;
      var ys := Heights(own);
      if n.location in own {
        assert n.location.y in ys by {
          var i :| 0 <= i < |own| && own[i] == n.location;
          assert ys[i] == n.location.y;
        }
      }
      if n in CheckNavigability(world, chunk, ys) {
        var i :| 0 <= i < |ys| && ys[i] == n.location.y;
        assert own[i] in own;
        assert own[i] == n.location;
      }
  }

  lemma UnionExactly(world: int, sections: seq<Vec3>, src: ChunkSource, loadChunks: bool, n: SectionNode)
    requires PositionsAgree(src)
    ensures n in Union(world, sections, Columns(sections), src, loadChunks)
      <==> n.location in sections && n == NodeFor(world, n.location, src, loadChunks)
  {
    var cols := Columns(sections);
    if n in Union(world, sections, cols, src, loadChunks) {
      var i :| 0 <= i < |cols| && n in ColumnNodes(world, sections, cols[i], src, loadChunks);
      ColumnNodesExactly(world, sections, cols[i], src, loadChunks, n);
    }
    if n.location in sections && n == NodeFor(world, n.location, src, loadChunks) {
      var c := ColumnOf(n.location);
      assert c in cols;
      var i :| 0 <= i < |cols| && cols[i] == c;
      ColumnNodesExactly(world, sections, c, src, loadChunks, n);
    }
  }

  /** Some requested section lies in a chunk that is not available. */
  predicate SomeChunkMissing(sections: seq<Vec3>, src: ChunkSource, loadChunks: bool)
  {
    exists s :: s in sections && ChunkFor(src, ColumnOf(s), loadChunks).None?
  }

  /** As written, the search holds the node `NodeFor` describes for every
      requested section and, as soon as one requested chunk is unavailable,
      an unnavigable node for every requested section besides. */
  lemma SearchSectionsAsWrittenExactly(world: int, sections: seq<Vec3>, src: ChunkSource, loadChunks: bool, n: SectionNode)
    requires PositionsAgree(src)
    ensures n in SearchSectionsAsWritten(world, sections, src, loadChunks)
      <==> (n.location in sections
            && (n == NodeFor(world, n.location, src, loadChunks)
                || (n == SectionNode(world, n.location, false) && SomeChunkMissing(sections, src, loadChunks))))
  {
    var cols := Columns(sections);
    if n in SearchSectionsAsWritten(world, sections, src, loadChunks) {
      var i :| 0 <= i < |cols| && n in ColumnNodesAsWritten(world, sections, cols[i], src, loadChunks);
      if ChunkFor(src, cols[i], loadChunks).None? {
        assert cols[i] in cols;
        var s :| s in sections && ColumnOf(s) == cols[i];
        assert SomeChunkMissing(sections, src, loadChunks);
      } else {
        assert n in ColumnNodes(world, sections, cols[i], src, loadChunks);
        ColumnNodesExactly(world, sections, cols[i], src, loadChunks, n);
      }
    }
    if n.location in sections && n == NodeFor(world, n.location, src, loadChunks) {
      var c := ColumnOf(n.location);
      assert c in cols;
      var i :| 0 <= i < |cols| && cols[i] == c;
      ColumnNodesExactly(world, sections, c, src, loadChunks, n);
      assert n in ColumnNodesAsWritten(world, sections, cols[i], src, loadChunks);
    }
    if n.location in sections && n == SectionNode(world, n.location, false) && SomeChunkMissing(sections, src, loadChunks) {
      var s :| s in sections && ChunkFor(src, ColumnOf(s), loadChunks).None?;
      assert ColumnOf(s) in cols;
      var i :| 0 <= i < |cols| && cols[i] == ColumnOf(s);
      assert n in ColumnNodesAsWritten(world, sections, cols[i], src, loadChunks);
    }
  }

  /** As written, one unavailable chunk in the request makes every
      requested section of an available chunk appear twice, once
      unnavigable: e.g. sections (0,0,0) and (1,0,0) with chunk (0,0)
      unloaded and section 0 of chunk (1,0) empty give both
      `SectionNode(w, (1,0,0), false)` and `SectionNode(w, (1,0,0), true)`. */
  lemma AsWrittenMarksLoadedSectionsUnnavigable(world: int, sections: seq<Vec3>, src: ChunkSource, loadChunks: bool, s: Vec3, t: Vec3)
    requires PositionsAgree(src)
    requires s in sections && t in sections
    requires ChunkFor(src, ColumnOf(s), loadChunks).None?
    requires ChunkFor(src, ColumnOf(t), loadChunks).Some?
    requires SectionNavigable(ChunkFor(src, ColumnOf(t), loadChunks).value, t.y)
    ensures SectionNode(world, t, false) in SearchSectionsAsWritten(world, sections, src, loadChunks)
    ensures SectionNode(world, t, true) in SearchSectionsAsWritten(world, sections, src, loadChunks)
    ensures SectionNode(world, t, false) !in SearchSections(world, sections, src, loadChunks)
  {
    var cols := Columns(sections);
    assert ColumnOf(s) in cols;
    var i :| 0 <= i < |cols| && cols[i] == ColumnOf(s);
    assert SectionNode(world, t, false) in ColumnNodesAsWritten(world, sections, cols[i], src, loadChunks);
    assert ColumnOf(t) in cols;
    var j :| 0 <= j < |cols| && cols[j] == ColumnOf(t);
    var chunk := ChunkFor(src, ColumnOf(t), loadChunks).value;
    var own := SectionsIn(sections, ColumnOf(t));
    var ys := Heights(own);
    assert t in own;
    var k :| 0 <= k < |own| && own[k] == t;
    assert ys[k] == t.y;
    assert SectionNode(world, t, true) in CheckNavigability(world, chunk, ys);
    assert SectionNode(world, t, true) in ColumnNodesAsWritten(world, sections, cols[j], src, loadChunks);
  }

  /** The sections from `lo` to `hi` of one column, in order. */
  function YColumn(x: int, z: int, lo: int, hi: int): (r: seq<Vec3>)
    requires lo <= hi + 1
    ensures |r| == hi - lo + 1
    ensures forall p :: p in r <==> p.x == x && p.z == z && lo <= p.y <= hi
  {
    var r := seq(hi - lo + 1, k requires 0 <= k < hi - lo + 1 => Vec3(x, lo + k, z));
    assert forall p: Vec3 :: p.x == x && p.z == z && lo <= p.y <= hi ==> r[p.y - lo] == p;
    r
  }

  /** `getSurroundingChunkPositions`: every section position within
      `radius` of the centre in each coordinate, x outermost, then z, then
      y. */
  function SurroundingPositions(center: Vec3, radius: int): (r: seq<Vec3>)
    ensures radius >= 0 ==> |r| == (2 * radius + 1) * (2 * radius + 1) * (2 * radius + 1)
    ensures radius < 0 ==> r == []
    ensures forall p :: p in r <==>
      center.x - radius <= p.x <= center.x + radius
      && center.y - radius <= p.y <= center.y + radius
      && center.z - radius <= p.z <= center.z + radius
  {
    if radius < 0 then []
    else
      var n := 2 * radius + 1;
      var planes := seq(n, i requires 0 <= i < n => Plane(center, radius, center.x - radius + i));
      forall i | 0 <= i < n ensures |planes[i]| == n * n {
        assert planes[i] == Plane(center, radius, center.x - radius + i);
      }
      FlattenLength(planes, n * n);
      forall p ensures p in Flatten(planes) <==>
        center.x - radius <= p.x <= center.x + radius
        && center.y - radius <= p.y <= center.y + radius
        && center.z - radius <= p.z <= center.z + radius
      {
        FlattenMembership(planes, p);
        if p in Flatten(planes) {
          var i :| 0 <= i < n && p in planes[i];
          assert planes[i] == Plane(center, radius, center.x - radius + i);
        }
        if center.x - radius <= p.x <= center.x + radius {
          assert p in Plane(center, radius, p.x) <==> p in planes[p.x - (center.x - radius)];
        }
      }
      Flatten(planes)
  }

  /** The positions with a given x, z outermost, then y. */
  function Plane(center: Vec3, radius: int, x: int): (r: seq<Vec3>)
    requires radius >= 0
    ensures |r| == (2 * radius + 1) * (2 * radius + 1)
    ensures forall p :: p in r <==>
      p.x == x
      && center.y - radius <= p.y <= center.y + radius
      && center.z - radius <= p.z <= center.z + radius
  {
    var n := 2 * radius + 1;
    var columns := seq(n, k requires 0 <= k < n => YColumn(x, center.z - radius + k, center.y - radius, center.y + radius));
    forall k | 0 <= k < n ensures |columns[k]| == n {
      assert columns[k] == YColumn(x, center.z - radius + k, center.y - radius, center.y + radius);
    }
    FlattenLength(columns, n);
    forall p ensures p in Flatten(columns) <==>
      p.x == x
      && center.y - radius <= p.y <= center.y + radius
      && center.z - radius <= p.z <= center.z + radius
    {
      FlattenMembership(columns, p);
      if p in Flatten(columns) {
        var k :| 0 <= k < n && p in columns[k];
        assert columns[k] == YColumn(x, center.z - radius + k, center.y - radius, center.y + radius);
      }
      if center.z - radius <= p.z <= center.z + radius {
        assert columns[p.z - (center.z - radius)] == YColumn(x, p.z, center.y - radius, center.y + radius);
      }
    }
    Flatten(columns)
  }

  predicate InCube(p: Vec3, center: Vec3, radius: int)
  {
    center.x - radius <= p.x <= center.x + radius
    && center.y - radius <= p.y <= center.y + radius
    && center.z - radius <= p.z <= center.z + radius
  }

  /** The positions of `ps` not in `known`, in order. */
  function Untracked(ps: seq<Vec3>, known: set<Vec3>): (r: seq<Vec3>)
    ensures forall p :: p in r <==> p in ps && p !in known
  {
    if |ps| == 0 then []
    else (if ps[0] in known then [] else [ps[0]]) + Untracked(ps[1..], known)
  }

  /** Some section of the cube of `radius` around `center` lies in a chunk
      that is not available. */
  ghost predicate ChunkMissingIn(center: Vec3, radius: int, src: ChunkSource, loadChunks: bool)
  {
    exists s :: InCube(s, center, radius) && ChunkFor(src, ColumnOf(s), loadChunks).None?
  }

  /** `adjustTrackedSections`, on the search as written. With nothing
      tracked, the cube of radius `searchDistance` is searched; otherwise the
      tracked sections outside the cube of the default radius 5 are dropped
      and only the positions of that cube no kept section covers are
      searched. Each searched position gets the node `NodeFor` describes
      and, when some searched chunk is unavailable, an unnavigable twin. */
  function AdjustTrackedSections(tracked: set<SectionNode>, origin: Vec3, searchDistance: int, world: int,
                                 src: ChunkSource, loadChunks: bool): (r: set<SectionNode>)
    requires PositionsAgree(src)
    ensures tracked == {} ==> forall n :: n in r <==>
      (InCube(n.location, origin, searchDistance)
       && (n == NodeFor(world, n.location, src, loadChunks)
           || (n == SectionNode(world, n.location, false) && ChunkMissingIn(origin, searchDistance, src, loadChunks))))
    ensures tracked != {} ==>
      (forall n :: n in r ==> InCube(n.location, origin, 5))
      && (forall n :: n in tracked && InCube(n.location, origin, 5) ==> n in r)
      && (forall p :: InCube(p, origin, 5) ==> exists n :: n in r && n.location == p)
      && (forall n, m :: n in r && n !in tracked && m in tracked ==> m.location != n.location)
      && (forall n :: n in r && n !in tracked ==>
            n == NodeFor(world, n.location, src, loadChunks)
            || (n == SectionNode(world, n.location, false) && ChunkMissingIn(origin, 5, src, loadChunks)))
  {
    if tracked == {} then
      var all := SurroundingPositions(origin, searchDistance);
      var found := SearchSectionsAsWritten(world, all, src, loadChunks);
      assert SomeChunkMissing(all, src, loadChunks) <==> ChunkMissingIn(origin, searchDistance, src, loadChunks) by {
        if ChunkMissingIn(origin, searchDistance, src, loadChunks) {
          var s :| InCube(s, origin, searchDistance) && ChunkFor(src, ColumnOf(s), loadChunks).None?;
          assert s in all;
        }
      }
      forall n ensures n in found <==> (InCube(n.location, origin, searchDistance)
        && (n == NodeFor(world, n.location, src, loadChunks)
            || (n == SectionNode(world, n.location, false) && ChunkMissingIn(origin, searchDistance, src, loadChunks)))) {
        SearchSectionsAsWrittenExactly(world, all, src, loadChunks, n);
      }
      tracked + found
    else
      var cube := SurroundingPositions(origin, 5);
      var kept := set n | n in tracked && n.location in cube;
      var existing := set n | n in kept :: n.location;
      var toSearch := Untracked(cube, existing);
      var found := SearchSectionsAsWritten(world, toSearch, src, loadChunks);
      forall n | n in found ensures n.location in toSearch
        && (n == NodeFor(world, n.location, src, loadChunks)
            || (n == SectionNode(world, n.location, false) && ChunkMissingIn(origin, 5, src, loadChunks))) {
        SearchSectionsAsWrittenExactly(world, toSearch, src, loadChunks, n);
        if n != NodeFor(world, n.location, src, loadChunks) {
          var s :| s in toSearch && ChunkFor(src, ColumnOf(s), loadChunks).None?;
          assert InCube(s, origin, 5);
        }
      }
      forall p | InCube(p, origin, 5) ensures exists n :: n in kept + found && n.location == p {
        if p !in existing {
          var n := NodeFor(world, p, src, loadChunks);
          SearchSectionsAsWrittenExactly(world, toSearch, src, loadChunks, n);
          assert n in found;
        } else {
          var m :| m in kept && m.location == p;
        }
      }
      forall n, m | n in kept + found && n !in tracked && m in tracked ensures m.location != n.location {
        assert n in found;
        assert n.location in toSearch && n.location !in existing;
        if m in kept {
          assert m.location in existing;
        }
      }
      kept + found
  }

  /** `adjustTrackedSections` on the corrected search: every section it
      adds is the one node `NodeFor` describes. */
  function AdjustTrackedSectionsCorrected(tracked: set<SectionNode>, origin: Vec3, searchDistance: int, world: int,
                                          src: ChunkSource, loadChunks: bool): (r: set<SectionNode>)
    requires PositionsAgree(src)
    ensures tracked == {} ==> forall n :: n in r <==>
      InCube(n.location, origin, searchDistance) && n == NodeFor(world, n.location, src, loadChunks)
    ensures tracked != {} ==>
      (forall n :: n in r ==> InCube(n.location, origin, 5))
      && (forall n :: n in tracked && InCube(n.location, origin, 5) ==> n in r)
      && (forall p :: InCube(p, origin, 5) ==> exists n :: n in r && n.location == p)
      && (forall n, m :: n in r && n !in tracked && m in tracked ==> m.location != n.location)
      && (forall n :: n in r && n !in tracked ==> n == NodeFor(world, n.location, src, loadChunks))
  {
    if tracked == {} then
      var all := SurroundingPositions(origin, searchDistance);
      var found := SearchSections(world, all, src, loadChunks);
      forall n ensures n in found <==> InCube(n.location, origin, searchDistance) && n == NodeFor(world, n.location, src, loadChunks) {
      }
      tracked + found
    else
      var cube := SurroundingPositions(origin, 5);
      var kept := set n | n in tracked && n.location in cube;
      var existing := set n | n in kept :: n.location;
      var toSearch := Untracked(cube, existing);
      var found := SearchSections(world, toSearch, src, loadChunks);
      forall n | n in found ensures n.location in toSearch && n == NodeFor(world, n.location, src, loadChunks) {
      }
      forall p | InCube(p, origin, 5) ensures exists n :: n in kept + found && n.location == p {
        if p !in existing {
          var n := NodeFor(world, p, src, loadChunks);
            assert n in found;
        } else {
          var m :| m in kept && m.location == p;
        }
      }
      forall n, m | n in kept + found && n !in tracked && m in tracked ensures m.location != n.location {
        assert n in found;
        assert n.location in toSearch && n.location !in existing;
        if m in kept {
          assert m.location in existing;
        }
      }
      kept + found
  }

  /** `getEstimatedCostEuclidean`: the squared distance between the two
      sections. */
  function EstimatedCost(node: SectionNode, destination: SectionNode): (c: int)
    ensures c >= 0
    ensures c == 0 <==> node.location == destination.location
  {
    var d := node.location.Minus(destination.location);
    d.x * d.x + d.y * d.y + d.z * d.z
  }

  /** The neighbours of `prev` among `all` that may be entered: navigable and
      not closed, in the order of `all`. */
  function Candidates(prev: SectionNode, all: seq<SectionNode>, closed: set<SectionNode>): (r: seq<SectionNode>)
    ensures forall n :: n in r <==> n in all && Touching(n.location, prev.location) && n.navigable && n !in closed
  {
    if |all| == 0 then []
    else
      var n := all[0];
      (if Touching(n.location, prev.location) && n.navigable && n !in closed then [n] else [])
        + Candidates(prev, all[1..], closed)
  }

  /** `minByOrNull`: the first element of least cost, if any. */
  function FirstCheapest(cs: seq<SectionNode>, destination: SectionNode): (r: Option<SectionNode>)
    ensures r.None? <==> |cs| == 0
    ensures r.Some? ==> exists k :: (0 <= k < |cs| && cs[k] == r.value
      && forall i :: 0 <= i < k ==> EstimatedCost(cs[i], destination) > EstimatedCost(r.value, destination))
    ensures r.Some? ==> forall c :: c in cs ==> EstimatedCost(r.value, destination) <= EstimatedCost(c, destination)
  {
    if |cs| == 0 then None
    else
      var rest := FirstCheapest(cs[1..], destination);
      if rest.None? || EstimatedCost(cs[0], destination) <= EstimatedCost(rest.value, destination) then
        Some(cs[0])
      else
        var k :| 0 <= k < |cs[1..]| && cs[1..][k] == rest.value
          && (forall i :: 0 <= i < k ==> EstimatedCost(cs[1..][i], destination) > EstimatedCost(rest.value, destination));
        assert cs[k + 1] == rest.value;
        rest
  }

  predicate HasNeighbour(prev: SectionNode, all: seq<SectionNode>)
  {
    exists i :: 0 <= i < |all| && Touching(all[i].location, prev.location)
  }

  /** `searchNeighbors`: an error when no known node touches `prev`;
      otherwise the first enterable neighbour closest to the destination, or
      nothing when no neighbour can be entered. */
  function SearchNeighbors(prev: SectionNode, all: seq<SectionNode>, closed: set<SectionNode>, destination: SectionNode): (r: Result<Option<SectionNode>>)
    ensures r.Fail? <==> !HasNeighbour(prev, all)
    ensures r == Ok(None) <==> (HasNeighbour(prev, all)
      && forall n :: n in all && Touching(n.location, prev.location) ==> !n.navigable || n in closed)
    ensures r.Ok? && r.value.Some? ==>
      var b := r.value.value;
      b in all && Touching(b.location, prev.location) && b.navigable && b !in closed
      && forall n :: n in all && Touching(n.location, prev.location) && n.navigable && n !in closed ==>
           EstimatedCost(b, destination) <= EstimatedCost(n, destination)
  {
    if !HasNeighbour(prev, all) then Fail("No neighbors")
    else Ok(FirstCheapest(Candidates(prev, all, closed), destination))
  }

  /** The first node of `all` at a location (`first { }`, which throws when
      there is none). */
  function FirstAt(all: seq<SectionNode>, location: Vec3): (r: Result<SectionNode>)
    ensures r.Fail? <==> forall n :: n in all ==> n.location != location
    ensures r.Ok? ==> r.value in all && r.value.location == location
  {
    if |all| == 0 then Fail("no node at the location")
    else if all[0].location == location then Ok(all[0])
    else FirstAt(all[1..], location)
  }

  /** The nodes closed from the start: every node that is not navigable. */
  function Closed(all: seq<SectionNode>): (r: set<SectionNode>)
    ensures forall n :: n in r <==> n in all && !n.navigable
  {
    set n | n in all && !n.navigable
  }

  /** A walk through `all`: every step after the first enters a navigable
      node touching the one before. */
  predicate IsWalk(path: seq<SectionNode>, all: seq<SectionNode>)
  {
    forall i :: 1 <= i < |path| ==>
      path[i] in all && path[i].navigable && Touching(path[i].location, path[i - 1].location)
  }

  lemma WalkExtend(path: seq<SectionNode>, all: seq<SectionNode>, next: SectionNode)
    requires |path| >= 1 && IsWalk(path, all)
    requires next in all && next.navigable && Touching(next.location, path[|path| - 1].location)
    ensures IsWalk(path + [next], all)
  {
    var p := path + [next];
    forall i | 1 <= i < |p| ensures p[i] in all && p[i].navigable && Touching(p[i].location, p[i - 1].location) {
      if i < |path| {
        assert p[i] == path[i] && p[i - 1] == path[i - 1];
      }
    }
  }

  /** Every step of `path` enters the node `searchNeighbors` picks from the
      node before. */
  predicate GreedySteps(path: seq<SectionNode>, all: seq<SectionNode>, destination: SectionNode)
  {
    forall i :: 1 <= i < |path| ==> SearchNeighbors(path[i - 1], all, Closed(all), destination) == Ok(Some(path[i]))
  }

  /** A greedy walk from `origin` that reaches `destination`, if at all,
      only at its last node. */
  predicate GreedyFrom(path: seq<SectionNode>, all: seq<SectionNode>, origin: SectionNode, destination: SectionNode)
  {
    1 <= |path| && path[0] == origin && GreedySteps(path, all, destination)
    && forall i :: 0 <= i < |path| - 1 ==> path[i] != destination
  }

  /** Where `searchNeighbors` throws: a greedy walk within the iteration
      bound, short of the destination, whose last node no known node
      touches. */
  predicate StuckWalk(path: seq<SectionNode>, all: seq<SectionNode>, origin: SectionNode, destination: SectionNode)
  {
    GreedyFrom(path, all, origin, destination) && |path| <= MaxAStarIterations + 1
    && path[|path| - 1] != destination
    && SearchNeighbors(path[|path| - 1], all, Closed(all), destination).Fail?
  }

  lemma {:induction false} GreedyPrefixesAgree(p: seq<SectionNode>, q: seq<SectionNode>, all: seq<SectionNode>,
                                              origin: SectionNode, destination: SectionNode, k: nat)
    requires GreedyFrom(p, all, origin, destination) && GreedyFrom(q, all, origin, destination)
    requires k < |p| && k < |q|
    ensures p[k] == q[k]
  {
    if k > 0 {
      GreedyPrefixesAgree(p, q, all, origin, destination, k - 1);
      assert SearchNeighbors(p[k - 1], all, Closed(all), destination) == Ok(Some(p[k]));
      assert SearchNeighbors(q[k - 1], all, Closed(all), destination) == Ok(Some(q[k]));
    }
  }

  /** The walk the loop returns is determined by its inputs: two greedy
      walks from the same origin that both stop where the loop stops are
      the same walk. */
  lemma WalkIsDetermined(p: seq<SectionNode>, q: seq<SectionNode>, all: seq<SectionNode>,
                         origin: SectionNode, destination: SectionNode)
    requires NavigationPath(p, all, origin, destination) && GreedyFrom(p, all, origin, destination)
    requires NavigationPath(q, all, origin, destination) && GreedyFrom(q, all, origin, destination)
    ensures p == q
  {
    forall k | 0 <= k < |p| && k < |q| ensures p[k] == q[k] {
      GreedyPrefixesAgree(p, q, all, origin, destination, k);
    }
    StoppedWalksEqualLength(p, q, all, origin, destination);
  }

  /** No greedy walk the loop can return runs past another one. */
  lemma StoppedWalksEqualLength(p: seq<SectionNode>, q: seq<SectionNode>, all: seq<SectionNode>,
                                origin: SectionNode, destination: SectionNode)
    requires NavigationPath(p, all, origin, destination) && GreedyFrom(p, all, origin, destination)
    requires NavigationPath(q, all, origin, destination) && GreedyFrom(q, all, origin, destination)
    ensures |p| == |q|
  {
    if |p| < |q| {
      ShorterStopsNoEarlier(p, q, all, origin, destination);
    } else if |q| < |p| {
      ShorterStopsNoEarlier(q, p, all, origin, destination);
    }
  }

  lemma ShorterStopsNoEarlier(p: seq<SectionNode>, q: seq<SectionNode>, all: seq<SectionNode>,
                              origin: SectionNode, destination: SectionNode)
    requires NavigationPath(p, all, origin, destination) && GreedyFrom(p, all, origin, destination)
    requires NavigationPath(q, all, origin, destination) && GreedyFrom(q, all, origin, destination)
    ensures |q| <= |p|
  {
    if |p| < |q| {
      var n := |p| - 1;
      assert q[n] != destination;
      assert SearchNeighbors(q[n], all, Closed(all), destination) == Ok(Some(q[n + 1]));
      GreedyPrefixesAgree(p, q, all, origin, destination, n);
      assert false;
    }
  }

  /** `findNavigationNodes`: from the origin node, repeatedly step to the
      best enterable neighbour until the destination node is reached, the
      iteration bound runs out, or no neighbour can be entered. Nodes that
      are not navigable are closed; the nodes walked through are not. The
      destination location (projected with floating point) is a parameter. */
  method FindNavigationNodes(all: seq<SectionNode>, originLocation: Vec3, destinationLocation: Vec3)
    returns (r: Result<seq<SectionNode>>)
    ensures FirstAt(all, destinationLocation).Fail? || FirstAt(all, originLocation).Fail? ==> r.Fail?
    ensures r.Ok? ==> FirstAt(all, originLocation).Ok? && FirstAt(all, destinationLocation).Ok?
    ensures r.Ok? ==> NavigationPath(r.value, all, FirstAt(all, originLocation).value, FirstAt(all, destinationLocation).value)
    ensures r.Ok? ==> GreedyFrom(r.value, all, FirstAt(all, originLocation).value, FirstAt(all, destinationLocation).value)
    ensures r.Fail? ==> (FirstAt(all, destinationLocation).Fail? || FirstAt(all, originLocation).Fail?
      || exists path :: StuckWalk(path, all, FirstAt(all, originLocation).value, FirstAt(all, destinationLocation).value))
  {
    var destinationNode := FirstAt(all, destinationLocation);
    if destinationNode.Fail? {
      return Fail(destinationNode.reason);
    }
    var originNode := FirstAt(all, originLocation);
    if originNode.Fail? {
      return Fail(originNode.reason);
    }
    r := Walk(all, originNode.value, destinationNode.value);
  }

  /** What `findNavigationNodes` returns: a walk from the origin through
      neighbouring known nodes, at most `MAX_A_STAR_ITERATIONS + 2` long,
      that ends at the destination, runs out of iterations, or stops where
      no open neighbour is left. */
  predicate NavigationPath(path: seq<SectionNode>, all: seq<SectionNode>, origin: SectionNode, destination: SectionNode)
  {
    1 <= |path| <= MaxAStarIterations + 2
    && path[0] == origin
    && IsWalk(path, all)
    && (path[|path| - 1] == destination
        || |path| == MaxAStarIterations + 2
        || SearchNeighbors(path[|path| - 1], all, Closed(all), destination) == Ok(None))
  }

  /** The loop of `findNavigationNodes`. */
  method Walk(all: seq<SectionNode>, origin: SectionNode, destination: SectionNode)
    returns (r: Result<seq<SectionNode>>)
    ensures r.Ok? ==> NavigationPath(r.value, all, origin, destination)
    ensures r.Ok? ==> GreedyFrom(r.value, all, origin, destination)
    ensures r.Fail? ==> exists path :: StuckWalk(path, all, origin, destination)
  {
    var closed := Closed(all);
    var open := [origin];
    var current := origin;
    var iterations := 0;
    while current != destination && iterations <= MaxAStarIterations
      invariant 0 <= iterations <= MaxAStarIterations + 1
      invariant |open| == iterations + 1
      invariant open[0] == origin && current == open[|open| - 1]
      invariant IsWalk(open, all)
      invariant GreedyFrom(open, all, origin, destination)
      decreases MaxAStarIterations + 1 - iterations
    {
      iterations := iterations + 1;
      var next := SearchNeighbors(current, all, closed, destination);
      if next.Fail? {
        assert StuckWalk(open, all, origin, destination);
        return Fail(next.reason);
      }
      if next.value.None? {
        return Ok(open);
      }
      WalkExtend(open, all, next.value.value);
      GreedyExtend(open, all, origin, destination, next.value.value);
      current := next.value.value;
      open := open + [current];
    }
    return Ok(open);
  }

  lemma GreedyExtend(path: seq<SectionNode>, all: seq<SectionNode>, origin: SectionNode, destination: SectionNode, next: SectionNode)
    requires GreedyFrom(path, all, origin, destination) && path[|path| - 1] != destination
    requires SearchNeighbors(path[|path| - 1], all, Closed(all), destination) == Ok(Some(next))
    ensures GreedyFrom(path + [next], all, origin, destination)
  {
    var p := path + [next];
    forall i | 1 <= i < |p| ensures SearchNeighbors(p[i - 1], all, Closed(all), destination) == Ok(Some(p[i])) {
      if i < |path| {
        assert p[i] == path[i] && p[i - 1] == path[i - 1];
      }
    }
    forall i | 0 <= i < |p| - 1 ensures p[i] != destination {
      assert p[i] == path[i];
    }
  }
}
