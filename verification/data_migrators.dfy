/** Data versions and migration gating: the registered versions, the
    selection of the versions a stored data version still lacks, and when a
    chunk, a player or an inventory is migrated. What each version does to
    an item is left opaque: it is the `apply` parameter. */
module DataMigrators {
  import opened Common

  /** The version numbers, in registration order. */
  const DataVersions: seq<nat> := [0, 1, 2, 3, 4, 5, 6]

  /** `lastDataVersion`, the last index of the registered versions. */
  const LastDataVersion: nat := |DataVersions| - 1

  /** Versions are registered in ascending order, each at the index equal to
      its number, so the last index is the highest version. */
  lemma VersionsAreIndices()
    ensures LastDataVersion == 6
    ensures forall i :: 0 <= i < |DataVersions| ==> DataVersions[i] == i
  {
  }

  /** An item stack, as far as the gating is concerned. */
  datatype ItemStack = ItemStack(material: string, amount: int, data: string)

  /** What holds an inventory: a plain block (`CraftBlockInventoryHolder`),
      a GUI (`ChestGui`), nothing, or anything else (players, containers). */
  datatype Holder = BlockHolder | ChestGuiHolder | NoHolder | OtherHolder

  datatype Inventory = Inventory(holder: Holder, items: seq<ItemStack>)

  /** `DataVersion.migrateInventory`: what one version does to the items of an
      inventory. */
  type Migration = (nat, seq<ItemStack>) -> seq<ItemStack>

  /** `getVersions`: `subList(v + 1, last + 1)`, which throws when the start
      index is negative or past the end index. */
  function GetVersions(v: int): (r: Result<seq<nat>>)
    ensures r.Ok? <==> -1 <= v <= LastDataVersion
    ensures r.Ok? ==> |r.value| == LastDataVersion - v
    ensures r.Ok? ==> forall i :: 0 <= i < |r.value| ==> r.value[i] == v + 1 + i
  {
    if v + 1 < 0 || v + 1 > LastDataVersion + 1 then Fail("IndexOutOfBoundsException")
    else Ok(DataVersions[v + 1..LastDataVersion + 1])
  }

  /** The selected versions are strictly ascending and are exactly the
      versions above `v`; the last version selects none, version 0 selects
      every version but the base one. */
  lemma GetVersionsSelectsNewer(v: int, n: nat)
    requires -1 <= v <= LastDataVersion
    ensures n in GetVersions(v).value <==> v < n <= LastDataVersion
    ensures forall i, j :: 0 <= i < j < |GetVersions(v).value| ==> GetVersions(v).value[i] < GetVersions(v).value[j]
    ensures GetVersions(LastDataVersion) == Ok([])
    ensures GetVersions(0) == Ok([1, 2, 3, 4, 5, 6])
  {
    var r := GetVersions(v).value;
    assert DataVersions[1..7] == [1, 2, 3, 4, 5, 6];
    if v < n <= LastDataVersion {
      assert r[n - v - 1] == n;
    }
  }

  /** The versions applied one by one, in the given order. */
  function ApplyAll(items: seq<ItemStack>, versions: seq<nat>, apply: Migration): seq<ItemStack>
    decreases |versions|
  {
    if |versions| == 0 then items else ApplyAll(apply(versions[0], items), versions[1..], apply)
  }

  /** Applying two runs of versions is applying their concatenation. */
  lemma {:induction false} ApplyAllConcat(items: seq<ItemStack>, a: seq<nat>, b: seq<nat>, apply: Migration)
    ensures ApplyAll(items, a + b, apply) == ApplyAll(ApplyAll(items, a, apply), b, apply)
    decreases |a|
  {
    if |a| > 0 {
      assert (a + b)[0] == a[0];
      assert (a + b)[1..] == a[1..] + b;
      ApplyAllConcat(apply(a[0], items), a[1..], b, apply);
    } else {
      assert a + b == b;
    }
  }

  /** Inventories whose holder is a plain block, a GUI or nothing are never
      migrated. */
  predicate Skipped(inv: Inventory)
  {
    inv.holder == BlockHolder || inv.holder == ChestGuiHolder || inv.holder == NoHolder
  }

  /** `migrateInventory`. */
  function MigrateInventory(inv: Inventory, versions: seq<nat>, apply: Migration): (r: Inventory)
    ensures r.holder == inv.holder
    ensures Skipped(inv) ==> r == inv
    ensures versions == [] ==> r == inv
    ensures !Skipped(inv) && |versions| > 0 ==>
      r.items == ApplyAll(apply(versions[0], inv.items), versions[1..], apply)
  {
    if Skipped(inv) then inv
    else Inventory(inv.holder, ApplyAll(inv.items, versions, apply))
  }

  /** Migrating in two steps, first to some version `b` and then from `b`
      onwards, is migrating from `a` in one go. */
  lemma MigrateInSteps(inv: Inventory, a: int, b: int, apply: Migration)
    requires -1 <= a <= b <= LastDataVersion
    ensures MigrateInventory(inv, GetVersions(a).value, apply)
         == MigrateInventory(MigrateInventory(inv, DataVersions[a + 1..b + 1], apply), GetVersions(b).value, apply)
  {
    assert GetVersions(a).value == DataVersions[a + 1..b + 1] + GetVersions(b).value;
    ApplyAllConcat(inv.items, DataVersions[a + 1..b + 1], GetVersions(b).value, apply);
  }

  /** A chunk: its stored data version (absent when never set) and the
      inventories of its piped-inventory blocks. */
  datatype Chunk = Chunk(version: Option<int>, inventories: seq<Inventory>)

  function StoredOrZero(v: Option<int>): int
  {
    match v
    case Some(n) => n
    case None => 0
  }

  /** `migrate(chunk)`: nothing at the last version; otherwise every
      inventory gets the versions the chunk lacks and the chunk then records
      the last version. A stored version the selection rejects throws. */
  function MigrateChunk(c: Chunk, apply: Migration): (r: Result<Chunk>)
    ensures StoredOrZero(c.version) == LastDataVersion ==> r == Ok(c)
    ensures r.Fail? <==> GetVersions(StoredOrZero(c.version)).Fail?
    ensures r.Ok? && StoredOrZero(c.version) != LastDataVersion ==>
      r.value.version == Some(LastDataVersion)
      && |r.value.inventories| == |c.inventories|
      && forall i :: 0 <= i < |c.inventories| ==>
           r.value.inventories[i] == MigrateInventory(c.inventories[i], GetVersions(StoredOrZero(c.version)).value, apply)
  {
    var v := StoredOrZero(c.version);
    if v == LastDataVersion then Ok(c)
    else
      match GetVersions(v)
      case Fail(e) => Fail(e)
      case Ok(toApply) =>
        Ok(Chunk(Some(LastDataVersion),
          seq(|c.inventories|, i requires 0 <= i < |c.inventories| => MigrateInventory(c.inventories[i], toApply, apply))))
  }

  /** A chunk without a stored version is migrated as one at version 0. */
  lemma MissingChunkVersionIsZero(c: Chunk, apply: Migration)
    requires c.version == None
    ensures MigrateChunk(c, apply).Ok?
    ensures MigrateChunk(c, apply).value.version == Some(LastDataVersion)
  {
  }

  /** Migration is idempotent: a migrated chunk is left alone next time. */
  lemma MigrateChunkIdempotent(c: Chunk, apply: Migration)
    requires MigrateChunk(c, apply).Ok?
    ensures MigrateChunk(MigrateChunk(c, apply).value, apply) == MigrateChunk(c, apply)
  {
  }

  /** A player's stored data version and inventory. */
  datatype Player = Player(version: Option<int>, inventory: Inventory)

  /** `migrate(player)`, gated like the chunk's. */
  function MigratePlayer(p: Player, apply: Migration): (r: Result<Player>)
    ensures StoredOrZero(p.version) == LastDataVersion ==> r == Ok(p)
    ensures r.Fail? <==> GetVersions(StoredOrZero(p.version)).Fail?
    ensures r.Ok? && StoredOrZero(p.version) != LastDataVersion ==>
      r.value == Player(Some(LastDataVersion),
        MigrateInventory(p.inventory, GetVersions(StoredOrZero(p.version)).value, apply))
  {
    var v := StoredOrZero(p.version);
    if v == LastDataVersion then Ok(p)
    else
      match GetVersions(v)
      case Fail(e) => Fail(e)
      case Ok(toApply) => Ok(Player(Some(LastDataVersion), MigrateInventory(p.inventory, toApply, apply)))
  }

  /** A migrated player is left alone next time. */
  lemma MigratePlayerIdempotent(p: Player, apply: Migration)
    requires MigratePlayer(p, apply).Ok?
    ensures MigratePlayer(MigratePlayer(p, apply).value, apply) == MigratePlayer(p, apply)
  {
  }

  /** `onOpenInventory`: every version after the base one, whatever the
      inventory was migrated with before. */
  function OnOpenInventory(inv: Inventory, apply: Migration): (r: Inventory)
    ensures Skipped(inv) ==> r == inv
    ensures !Skipped(inv) ==> r.items == ApplyAll(inv.items, [1, 2, 3, 4, 5, 6], apply)
  {
    assert DataVersions[1..7] == [1, 2, 3, 4, 5, 6];
    MigrateInventory(inv, GetVersions(0).value, apply)
  }
}
