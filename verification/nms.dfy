/** Low-level block access: the direction-to-face mapping, the split of a
    block coordinate into chunk and local coordinates, the guarded "safe"
    block-state lookup, and the air test. */
module BlockAccess {
  import opened Common
  import opened Text

  /** Minecraft's six directions. */
  datatype Direction = DirDown | DirUp | DirNorth | DirSouth | DirWest | DirEast

  /** `Direction.blockFace`. */
  function BlockFaceOf(d: Direction): (f: Face)
    ensures IsCardinal(f)
  {
    match d
    case DirDown => Down
    case DirUp => Up
    case DirNorth => North
    case DirSouth => South
    case DirWest => West
    case DirEast => East
  }

  /** Each direction maps to the face of the same name: the mapping is
      one-to-one and reaches every cardinal face. */
  lemma BlockFaceBijective(a: Direction, b: Direction, f: Face)
    ensures BlockFaceOf(a) == BlockFaceOf(b) ==> a == b
    ensures IsCardinal(f) ==> exists d :: BlockFaceOf(d) == f
  {
    if IsCardinal(f) {
      match f
      case North => assert BlockFaceOf(DirNorth) == f;
      case South => assert BlockFaceOf(DirSouth) == f;
      case East => assert BlockFaceOf(DirEast) == f;
      case West => assert BlockFaceOf(DirWest) == f;
      case Up => assert BlockFaceOf(DirUp) == f;
      case Down => assert BlockFaceOf(DirDown) == f;
    }
  }

  const TwoTo32: int := 0x1_0000_0000

  /** The 32 bits of a Kotlin `Int`, read as an unsigned number. */
  function Bits(x: int): (u: int)
    requires IsInt32(x)
    ensures 0 <= u < TwoTo32
    ensures u % TwoTo32 == x % TwoTo32
  {
    if x >= 0 then x else x + TwoTo32
  }

  /** The `Int` whose 32 bits, read unsigned, are `u`. */
  function FromBits(u: int): (x: int)
    requires 0 <= u < TwoTo32
    ensures IsInt32(x) && Bits(x) == u
  {
    if u < 0x8000_0000 then u else u - TwoTo32
  }

  /** The `Int` an unbounded result wraps to: the one with the same low 32
      bits. */
  function Wrap32(n: int): (r: int)
    ensures IsInt32(r)
    ensures (r - n) % TwoTo32 == 0
    ensures IsInt32(n) ==> r == n
  {
    FromBits(n % TwoTo32)
  }

  /** `x and 15`: the low four bits. */
  function And15(x: int): (r: int)
    requires IsInt32(x)
    ensures 0 <= r < 16
  {
    Bits(x) % 16
  }

  /** `x shr 4`: the bits shifted right by four, the sign bit copied into
      the four bits vacated at the top. */
  function Shr4(x: int): (r: int)
    requires IsInt32(x)
    ensures IsInt32(r)
  {
    var u := Bits(x);
    FromBits(u / 16 + (if u >= 0x8000_0000 then 0xF000_0000 else 0))
  }

  /** The chunk coordinate and the local coordinate put the block
      coordinate back together, negative coordinates included: the shift is
      floor division by 16 and the mask the non-negative remainder. */
  lemma ChunkSplit(x: int)
    requires IsInt32(x)
    ensures Shr4(x) * 16 + And15(x) == x
    ensures Shr4(x) == x / 16 && And15(x) == x % 16
  {
  }

  datatype ChunkPos = ChunkPos(x: int, z: int)

  /** Blocks, as far as the air test distinguishes them. */
  datatype Block = Air | CaveAir | VoidAir | Light | OtherBlock(name: string)

  datatype BlockState = BlockState(block: Block, properties: string)

  /** `isAir`. */
  function IsAir(b: Block): (r: bool)
    ensures r <==> b in {Air, CaveAir, VoidAir, Light}
    ensures r ==> !b.OtherBlock?
  {
    b == Air || b == CaveAir || b == VoidAir || b == Light
  }

  /** The world as the lookups see it: its height bounds and the chunks
      currently loaded. */
  datatype World = World(minHeight: int, maxHeight: int, loaded: set<ChunkPos>)

  /** `LevelChunk.getBlockState(localX, y, localZ)` of the chunk at a given
      position; `Fail` stands for the `IndexOutOfBoundsException` it may
      throw. */
  type ChunkReader = (ChunkPos, int, int, int) -> Result<BlockState>

  /** `getNMSBlockData`: the chunk is fetched (loading it if need be) and
      asked for the local position; its failure propagates. */
  function GetNMSBlockData(x: int, y: int, z: int, read: ChunkReader): (r: Result<BlockState>)
    requires IsInt32(x) && IsInt32(z)
    ensures exists cx, lx, cz, lz ::
      cx * 16 + lx == x && cz * 16 + lz == z && 0 <= lx < 16 && 0 <= lz < 16
      && r == read(ChunkPos(cx, cz), lx, y, lz)
  {
    ChunkSplit(x);
    ChunkSplit(z);
    read(ChunkPos(Shr4(x), Shr4(z)), And15(x), y, And15(z))
  }

  /** `getNMSBlockSateSafe`: no answer outside `[minHeight, maxHeight]`
      (both inclusive), for a chunk that is not loaded, or when the chunk's
      lookup throws the index exception. */
  function GetNMSBlockStateSafe(w: World, x: int, y: int, z: int, read: ChunkReader): (r: Option<BlockState>)
    requires IsInt32(x) && IsInt32(z)
    ensures (y < w.minHeight || y > w.maxHeight) ==> r == None
    ensures ChunkPos(x / 16, z / 16) !in w.loaded ==> r == None
  {
    ChunkSplit(x);
    ChunkSplit(z);
    if y < w.minHeight || y > w.maxHeight then None
    else
      var chunk := ChunkPos(Shr4(x), Shr4(z));
      if chunk !in w.loaded then None
      else
        match read(chunk, And15(x), y, And15(z))
        case Ok(state) => Some(state)
        case Fail(_) => None
  }

  /** The `Vec3i` overload of the safe lookup. */
  function GetNMSBlockStateSafeAt(w: World, pos: Vec3, read: ChunkReader): (r: Option<BlockState>)
    requires IsInt32(pos.x) && IsInt32(pos.z)
    ensures r == GetNMSBlockStateSafe(w, pos.x, pos.y, pos.z, read)
  {
    var Vec3(x, y, z) := pos;
    GetNMSBlockStateSafe(w, x, y, z, read)
  }

  /** The safe lookup answers exactly when the height is in bounds, the
      chunk is loaded and the plain lookup succeeds, and then gives the same
      state as the plain lookup. */
  lemma SafeAgreesWithUnsafe(w: World, x: int, y: int, z: int, read: ChunkReader, s: BlockState)
    requires IsInt32(x) && IsInt32(z)
    ensures GetNMSBlockStateSafe(w, x, y, z, read) == Some(s)
        <==> w.minHeight <= y <= w.maxHeight
             && ChunkPos(x / 16, z / 16) in w.loaded
             && GetNMSBlockData(x, y, z, read) == Ok(s)
  {
    ChunkSplit(x);
    ChunkSplit(z);
  }

  /** A height equal to `maxHeight` passes the guard: with a loaded chunk
      and a lookup that does not throw, the state is returned. */
  lemma MaxHeightIsInside(w: World, x: int, z: int, read: ChunkReader)
    requires IsInt32(x) && IsInt32(z)
    requires w.minHeight <= w.maxHeight && ChunkPos(x / 16, z / 16) in w.loaded
    requires GetNMSBlockData(x, w.maxHeight, z, read).Ok?
    ensures GetNMSBlockStateSafe(w, x, w.maxHeight, z, read) == Some(GetNMSBlockData(x, w.maxHeight, z, read).value)
  {
    ChunkSplit(x);
    ChunkSplit(z);
  }
}
