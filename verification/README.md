# Ion core rules, modelled in Dafny

Ion is a Minecraft (Paper) server plugin for a space-faring game. Ships are
built from blocks, multiblock machines run on power, items carry custom
components, and players form nations and space stations. This project models
the small, deterministic rules at the heart of that code. Each rule is a pure
Dafny function or method with a contract, plus lemmas about how the rules
relate. The world, inventories, permissions and clocks are parameters.

One Dafny module stands for each source file:

- `TransportNodes` (`transport_node.dfy`): the inverted directional power node.
  It decides which neighbours it may pass power to, and it stores and reloads
  its position through a persistent data container.
- `ChunkNetwork` (`chunk_network.dfy`): the per-chunk transport network.
  - The node table keyed by packed block positions, and `getNode`.
  - Creating nodes from block snapshots.
  - Loading, where a node whose load throws keeps what it wrote and the later nodes still load, and saving.
  - The build sequence and the scan of one chunk section.
- `DockingTube` (`docking_tube.dfy`): offset and coordinate conversions for the
  tube's mouth, and the six button positions.
- `BoxShield` (`box_shield.dfy`):
  - the power setter's clamp;
  - the "w,h,l" dimensions on the sign;
  - the boxes cached for the four horizontal facings;
  - containment.
- `AreaOfEffect` (`aoe_mod.dfy`): the area-of-effect tool mod. It covers the mod's
  identifier and incompatibilities, the `left`/`up` face rotations and the
  square of blocks it breaks.
- `BlockAccess` (`nms.dfy`):
  - the direction-to-face mapping;
  - the chunk/local split of a coordinate (32-bit `shr 4` and `and 15`);
  - the guarded block lookup;
  - `isAir`.
- `TriTurret` (`tri_turret.dfy`): fire points, vertical factor, display name and
  pilot offsets of the top and bottom turrets.
- `Pathfinding` (`pathfinding.dfy`): the AI's section-grid pathfinding.
  - Section centres, the 26-neighbourhood and the navigability scan.
  - The search of a batch of sections and the cube of tracked sections.
  - The greedy cheapest-neighbour step and the bounded walk toward a
    destination.
- `ToolMods` (`tool_mods.dfy`): the tool-mod menu.
  - The menu's size and `canAdd`.
  - Filling the slots from the installed mods.
  - Rebuilding the installed mods from the menu's contents, with the add and
    remove events, and the add, remove and swap handlers built on it.
- `CustomItems` (`custom_item.dfy`): lore assembly from lore managers in
  descending priority with optional separators, and attribute collection.
- `DataMigrators` (`data_migrators.dfy`):
  - the registered data versions;
  - the selection of the versions a stored version lacks;
  - when chunks, players and opened inventories are migrated. The migrations
    themselves are a parameter.
- `AutoCrafter` (`autocrafter.dfy`): one auto-crafter tick.
  - The power per craft.
  - Reserving input items per grid ingredient.
  - The output-full stop, the iteration budget and the power write-back.
- `FurnaceMachines`, `Printers`, `CarbonProcessors` (`furnace_machine.dfy`,
  `printer.dfy`, `carbon_processor.dfy`):
  - the shared furnace-machine tick with its ordered guards and exact resource
    changes;
  - the printer's constants;
  - the carbon processor's output-name rewrite.
- `StarshipTypes` (`starship_type.dfy`):
  - the table of 36 ship classes;
  - `canUse` and `canPilotIn`;
  - the sorted list of unlocked types.
- `SpaceStations` (`space_station.dfy`): the space-station commands.
  - Name and radius validation and the formation cooldown.
  - Create, abandon, resize and rename.
  - Trust lists and trust level.
  - Transfer between personal, settlement and nation ownership.
- `StarshipDealers` (`ship_dealers.dfy`): the ship dealer's purchase gate, and
  the walk that looks for an unobstructed spot for the bought ship.

Shared modules:

- `Common`: `Option`/`Result`, positions, and the block faces: the six cardinal faces and one `NonCardinal` value.
- `Text`: the Kotlin string operations used, such as `toString`, `toInt`,
  `split`, `replace`, `removeSuffix` and case-insensitive comparison.
- `Sorting`: a stable sort standing for `sortedBy`/`sortedByDescending`.

A few contracts record behaviour that differs from what a reader might
expect. All of them are modelled as written:

- The lore can end with a separator. This happens when the last lore manager
  contributes no lines and the one before asked for a separator
  (`CustomItems.TrailingSeparatorAfterEmptyManager`).
- Transferring a station to nation ownership does not re-check the name. Two
  nation stations can then share a name, ignoring case
  (`SpaceStations.TransferSkipsNameCheck`).
- When all 5001 spots are obstructed, the dealer's walk returns the spot after
  the last check. That spot is never checked.
- The safe block lookup lets `y == maxHeight` through
  (`BlockAccess.MaxHeightIsInside`).

## Model

| member | source | states |
|---|---|---|
| TransportNodes.IsTransferableTo | server/src/main/kotlin/net/horizonsend/ion/server/features/transport/node/power/InvertedDirectionalNode.kt:17-20 | true exactly when the target is not an end-rod node, a power extractor or a solar panel |
| TransportNodes.TransferDependsOnlyOnTargetKind | server/src/main/kotlin/net/horizonsend/ion/server/features/transport/node/power/InvertedDirectionalNode.kt:17-20 | two calls agree whenever the targets are of the same kind, whatever the nodes' positions |
| TransportNodes.StoreData | server/src/main/kotlin/net/horizonsend/ion/server/features/transport/node/power/InvertedDirectionalNode.kt:22-24 | the container afterwards holds the node's position as a long under the covered-positions key, other keys untouched |
| TransportNodes.LoadData | server/src/main/kotlin/net/horizonsend/ion/server/features/transport/node/power/InvertedDirectionalNode.kt:26-28 | a stored long becomes the node's position; a missing or differently typed entry is an error |
| TransportNodes.StoreLoadRoundTrip | server/src/main/kotlin/net/horizonsend/ion/server/features/transport/node/power/InvertedDirectionalNode.kt:22-28 | loading what was stored gives back the stored position, whatever the container held before |
| ChunkNetwork.GetNode | server/src/main/kotlin/net/horizonsend/ion/server/features/transport/network/ChunkTransportNetwork.kt:167-170 | a node is found exactly when the packed key of (x, y, z) is in the table, and it is the table's entry |
| ChunkNetwork.GetNodeOtherPosition | server/src/main/kotlin/net/horizonsend/ion/server/features/transport/network/ChunkTransportNetwork.kt:167-170 | with an injective packing, storing a node at one position changes the lookup of that position only |
| ChunkNetwork.CreateNodeFromBlock | server/src/main/kotlin/net/horizonsend/ion/server/features/transport/network/ChunkTransportNetwork.kt:41-45 | the factory gets the snapshot itself and the packed key of its coordinates |
| ChunkNetwork.CreateNodeKeysDistinct | server/src/main/kotlin/net/horizonsend/ion/server/features/transport/network/ChunkTransportNetwork.kt:41-45 | snapshots at different positions are handed different keys |
| ChunkNetwork.DeserializeAll | server/src/main/kotlin/net/horizonsend/ion/server/features/transport/network/ChunkTransportNetwork.kt:57-62 | every node produced comes from a stored entry that loads to it; never more nodes than entries |
| ChunkNetwork.DeserializeSkipsFailure | server/src/main/kotlin/net/horizonsend/ion/server/features/transport/network/ChunkTransportNetwork.kt:57-62 | an entry that fails to load is dropped and the rest are loaded as if it were absent |
| ChunkNetwork.DeserializeInverse | server/src/main/kotlin/net/horizonsend/ion/server/features/transport/network/ChunkTransportNetwork.kt:57-62 | entries written by a serializer that the loader inverts load back to exactly the saved nodes, in order |
| ChunkNetwork.StoredEntries | server/src/main/kotlin/net/horizonsend/ion/server/features/transport/network/ChunkTransportNetwork.kt:54-57 | without a transport container there is nothing to load |
| ChunkNetwork.LoadData | server/src/main/kotlin/net/horizonsend/ion/server/features/transport/network/ChunkTransportNetwork.kt:53-68 | returns early with the table unchanged when no transport container is stored; fails only when the stored data has the wrong type |
| ChunkNetwork.LoadAll | server/src/main/kotlin/net/horizonsend/ion/server/features/transport/network/ChunkTransportNetwork.kt:64-67 | each node is loaded into the table the previous ones left, in order, whether or not a load threw |
| ChunkNetwork.LoadAllConcat | server/src/main/kotlin/net/horizonsend/ion/server/features/transport/network/ChunkTransportNetwork.kt:64-67 | loading two runs of nodes is loading the second run into the table the first one left |
| ChunkNetwork.LoadAllIgnoresThrows | server/src/main/kotlin/net/horizonsend/ion/server/features/transport/network/ChunkTransportNetwork.kt:64-67 | whether a load throws does not matter, only the table it leaves |
| ChunkNetwork.LoadAllSkipsFailure | server/src/main/kotlin/net/horizonsend/ion/server/features/transport/network/ChunkTransportNetwork.kt:64-67 | a node whose load throws without writing anything is skipped: the result is the one without it, and the nodes after it are still loaded |
| ChunkNetwork.LoadAllStoresEveryNode | server/src/main/kotlin/net/horizonsend/ion/server/features/transport/network/ChunkTransportNetwork.kt:64-67 | a loaded node not overwritten by a later one at the same position ends up in the table |
| ChunkNetwork.LoadAllKeeps | server/src/main/kotlin/net/horizonsend/ion/server/features/transport/network/ChunkTransportNetwork.kt:64-67 | nodes at positions no loaded node occupies stay in the table |
| ChunkNetwork.DistinctNodes | server/src/main/kotlin/net/horizonsend/ion/server/features/transport/network/ChunkTransportNetwork.kt:73-77 | the node-keyed map of save holds each node of the table exactly once, with no repeats |
| ChunkNetwork.SerializedEntries | server/src/main/kotlin/net/horizonsend/ion/server/features/transport/network/ChunkTransportNetwork.kt:75-79 | one serialized entry per distinct node, in the same order |
| ChunkNetwork.Save | server/src/main/kotlin/net/horizonsend/ion/server/features/transport/network/ChunkTransportNetwork.kt:70-84 | writes the network's own key and leaves every other key of the chunk container as it was |
| ChunkNetwork.SaveOneEntryPerNode | server/src/main/kotlin/net/horizonsend/ion/server/features/transport/network/ChunkTransportNetwork.kt:70-84 | the saved node array has one entry per distinct node of the table, each the node's serialization |
| ChunkNetwork.DistinctNodesAreValues | server/src/main/kotlin/net/horizonsend/ion/server/features/transport/network/ChunkTransportNetwork.kt:73-77 | the distinct nodes are exactly the table's values |
| ChunkNetwork.SaveLoadKeys | server/src/main/kotlin/net/horizonsend/ion/server/features/transport/network/ChunkTransportNetwork.kt:54-81 | what save writes is what load reads only when the network's own key is the power transport key; otherwise load sees the container as before |
| ChunkNetwork.SaveThenLoad | server/src/main/kotlin/net/horizonsend/ion/server/features/transport/network/ChunkTransportNetwork.kt:53-84 | loading what was saved under the transport key, with a loader inverse to the serializer, offers the network each saved node in order |
| ChunkNetwork.BuildRelationsSteps | server/src/main/kotlin/net/horizonsend/ion/server/features/transport/network/ChunkTransportNetwork.kt:143-147 | each node is asked to build its relations once, with its own key, in table order |
| ChunkNetwork.Build | server/src/main/kotlin/net/horizonsend/ion/server/features/transport/network/ChunkTransportNetwork.kt:96-101 | relations for every node exactly once, then consolidation, then the graph; the node table is not changed |
| ChunkNetwork.OrderLength | server/src/main/kotlin/net/horizonsend/ion/server/features/transport/network/ChunkTransportNetwork.kt:144 | an iteration order visiting every key once is as long as the table |
| ChunkNetwork.CollectSectionNodes | server/src/main/kotlin/net/horizonsend/ion/server/features/transport/network/ChunkTransportNetwork.kt:118-138 | visits 4096 positions, x outermost and z innermost, from the section origin, and calls the factory for each position that has a snapshot, in scan order |
| ChunkNetwork.CellOfIndex | server/src/main/kotlin/net/horizonsend/ion/server/features/transport/network/ChunkTransportNetwork.kt:123-131 | scan index 256x + 16y + z is the position (x, y, z) from the origin |
| ChunkNetwork.ScanCoversSection | server/src/main/kotlin/net/horizonsend/ion/server/features/transport/network/ChunkTransportNetwork.kt:123-137 | the scan visits every position of the 16x16x16 section exactly once and nothing outside it |
| DockingTube.OffsetToCoordinate | server/src/main/kotlin/net/horizonsend/ion/server/features/multiblock/type/dockingtube/DockingTubeMultiblock.kt:78-90 | defined exactly for horizontal facings; the offset lands on z for an X-axis facing and on x for a Z-axis facing, y is the up-down offset |
| DockingTube.CoordinateToOffset | server/src/main/kotlin/net/horizonsend/ion/server/features/multiblock/type/dockingtube/DockingTubeMultiblock.kt:92-102 | defined exactly for horizontal facings; the second component is the y coordinate |
| DockingTube.OffsetRoundTrip | server/src/main/kotlin/net/horizonsend/ion/server/features/multiblock/type/dockingtube/DockingTubeMultiblock.kt:78-102 | turning an offset into a coordinate and back gives the offset, and the coordinate has no component along the facing |
| DockingTube.CoordinateRoundTrip | server/src/main/kotlin/net/horizonsend/ion/server/features/multiblock/type/dockingtube/DockingTubeMultiblock.kt:78-102 | a coordinate survives the trip through an offset exactly when it has no component along the facing |
| DockingTube.OppositeFacingsAgree | server/src/main/kotlin/net/horizonsend/ion/server/features/multiblock/type/dockingtube/DockingTubeMultiblock.kt:83-99 | a facing and its opposite convert alike, since only the axis is consulted |
| DockingTube.GetButtons | server/src/main/kotlin/net/horizonsend/ion/server/features/multiblock/type/dockingtube/DockingTubeMultiblock.kt:63-76 | six buttons for a horizontal direction; other directions have no right face |
| DockingTube.ButtonsAroundDoor | server/src/main/kotlin/net/horizonsend/ion/server/features/multiblock/type/dockingtube/DockingTubeMultiblock.kt:63-76 | with the upper door block two steps in front of the sign: the buttons are right, left and above it, then right, left and below the block under it, where right is a horizontal step across the facing; the six are distinct and none is a door block |
| BoxShield.TDiv | server/src/main/kotlin/net/horizonsend/ion/server/features/starship/subsystem/shield/BoxShieldSubsystem.kt:66-68 | Kotlin's integer division: the quotient truncates toward zero, with the sign of the dividend and a remainder smaller than the divisor |
| BoxShield.ClampPower | server/src/main/kotlin/net/horizonsend/ion/server/features/starship/subsystem/shield/BoxShieldSubsystem.kt:19-22 | `coerceIn(0, maxPower)`: the stored power lies in 0..maxPower, equals the value exactly when it is in range, 0 below and maxPower above; a negative maximum throws |
| BoxShield.ClampPowerStable | server/src/main/kotlin/net/horizonsend/ion/server/features/starship/subsystem/shield/BoxShieldSubsystem.kt:19-22 | clamping is idempotent and monotone |
| BoxShield.ParseAll | server/src/main/kotlin/net/horizonsend/ion/server/features/starship/subsystem/shield/BoxShieldSubsystem.kt:36 | the parse succeeds exactly when every part parses as a 32-bit integer, and then lists their values in order |
| BoxShield.ParseDimensions | server/src/main/kotlin/net/horizonsend/ion/server/features/starship/subsystem/shield/BoxShieldSubsystem.kt:32-39 | the dimensions are read exactly when the line, commas turned to spaces, splits into at least three pieces that all parse; they are the first three values |
| BoxShield.ParseDimensionsOfSign | server/src/main/kotlin/net/horizonsend/ion/server/features/starship/subsystem/shield/BoxShieldSubsystem.kt:32-39 | the sign line "w,h,l" written from three 32-bit integers parses back to width w, height h and length l |
| BoxShield.CommasToSpaces | server/src/main/kotlin/net/horizonsend/ion/server/features/starship/subsystem/shield/BoxShieldSubsystem.kt:34 | the commas between the three numbers become spaces |
| BoxShield.SplitThree | server/src/main/kotlin/net/horizonsend/ion/server/features/starship/subsystem/shield/BoxShieldSubsystem.kt:35 | splitting on spaces gives back the three pieces |
| BoxShield.ShapeFor | server/src/main/kotlin/net/horizonsend/ion/server/features/starship/subsystem/shield/BoxShieldSubsystem.kt:62-71 | defined for the four horizontal faces: a box centred on the sign, half height up and down, half width across and half length along the face |
| BoxShield.CacheShapes | server/src/main/kotlin/net/horizonsend/ion/server/features/starship/subsystem/shield/BoxShieldSubsystem.kt:41-71 | exactly the four horizontal faces are cached, each with its own box |
| BoxShield.OppositeFacesShareBox | server/src/main/kotlin/net/horizonsend/ion/server/features/starship/subsystem/shield/BoxShieldSubsystem.kt:41-71 | a face and its opposite have the same box, and so do the two side faces |
| BoxShield.ContainsPosition | server/src/main/kotlin/net/horizonsend/ion/server/features/starship/subsystem/shield/BoxShieldSubsystem.kt:47-60 | false in another world; otherwise defined exactly when the current face has a cached box |
| BoxShield.ContainsWithinHalfExtents | server/src/main/kotlin/net/horizonsend/ion/server/features/starship/subsystem/shield/BoxShieldSubsystem.kt:47-71 | a position is inside exactly when each offset from the sign is within that axis's half extent |
| BoxShield.CenteredBounds | server/src/main/kotlin/net/horizonsend/ion/server/features/starship/subsystem/shield/BoxShieldSubsystem.kt:59 | the six bound comparisons against a centred box are the three absolute-value comparisons |
| ToolMods.InventorySize | server/src/main/kotlin/net/horizonsend/ion/server/features/custom/items/type/tool/mods/ToolModMenu.kt:34 | a whole number of rows of nine with room for one slot more than the installed mods, and less than a row to spare |
| ToolMods.InventorySizeLeast | server/src/main/kotlin/net/horizonsend/ion/server/features/custom/items/type/tool/mods/ToolModMenu.kt:34 | no smaller multiple of nine has room for the installed mods plus one |
| ToolMods.CanAdd | server/src/main/kotlin/net/horizonsend/ion/server/features/custom/items/type/tool/mods/ToolModMenu.kt:194-227 | true exactly when the item is a modification item, one of its predicates accepts the tool, the tool is under its limit, and no installed mod is the same mod or lists its class as incompatible |
| ToolMods.AnyApplies | server/src/main/kotlin/net/horizonsend/ion/server/features/custom/items/type/tool/mods/ToolModMenu.kt:202 | some application predicate accepts the tool |
| ToolMods.NoneConflicts | server/src/main/kotlin/net/horizonsend/ion/server/features/custom/items/type/tool/mods/ToolModMenu.kt:212-226 | no installed mod is the same mod or incompatible with it |
| ToolMods.CanAddIgnoresOwnList | server/src/main/kotlin/net/horizonsend/ion/server/features/custom/items/type/tool/mods/ToolModMenu.kt:212-226 | only the installed mods' incompatibility lists are consulted, not the new mod's own |
| ToolMods.PopulateMods | server/src/main/kotlin/net/horizonsend/ion/server/features/custom/items/type/tool/mods/ToolModMenu.kt:54-64 | item-backed mods fill the first slots in order and the rest of the menu is empty |
| ToolMods.ItemBacked | server/src/main/kotlin/net/horizonsend/ion/server/features/custom/items/type/tool/mods/ToolModMenu.kt:59 | the installed mods that have a modification item |
| ToolMods.ItemLess | server/src/main/kotlin/net/horizonsend/ion/server/features/custom/items/type/tool/mods/ToolModMenu.kt:73-75 | the installed mods without a modification item |
| ToolMods.ContentMods | server/src/main/kotlin/net/horizonsend/ion/server/features/custom/items/type/tool/mods/ToolModMenu.kt:77-80 | the modifications of the modification items in the menu |
| ToolMods.AddDistinct | server/src/main/kotlin/net/horizonsend/ion/server/features/custom/items/type/tool/mods/ToolModMenu.kt:80-81 | a set-like union that keeps the first list's order and adds no duplicates |
| ToolMods.Minus | server/src/main/kotlin/net/horizonsend/ion/server/features/custom/items/type/tool/mods/ToolModMenu.kt:87-90 | `removeAll`: the elements of the first list not in the second |
| ToolMods.MinusAllIn | server/src/main/kotlin/net/horizonsend/ion/server/features/custom/items/type/tool/mods/ToolModMenu.kt:87-90 | removing a superset leaves nothing |
| ToolMods.Events | server/src/main/kotlin/net/horizonsend/ion/server/features/custom/items/type/tool/mods/ToolModMenu.kt:95-96 | one removal per removed mod and one addition per added mod, all removals before any addition |
| ToolMods.RebuiltMods | server/src/main/kotlin/net/horizonsend/ion/server/features/custom/items/type/tool/mods/ToolModMenu.kt:70-82 | without duplicates, the new mods are the menu's modifications plus the installed mods that have no item |
| ToolMods.RebuildFromContents | server/src/main/kotlin/net/horizonsend/ion/server/features/custom/items/type/tool/mods/ToolModMenu.kt:70-97 | the mods are replaced; removals fire exactly for installed mods that are gone and additions exactly for new ones, removals first |
| ToolMods.PopulateThenRebuild | server/src/main/kotlin/net/horizonsend/ion/server/features/custom/items/type/tool/mods/ToolModMenu.kt:54-97 | closing an untouched menu keeps exactly the installed mods and fires no event |
| ToolMods.DistinctSameSetsSameLength | server/src/main/kotlin/net/horizonsend/ion/server/features/custom/items/type/tool/mods/ToolModMenu.kt:80 | two duplicate-free lists with the same elements have the same length |
| ToolMods.HandleAddItem | server/src/main/kotlin/net/horizonsend/ion/server/features/custom/items/type/tool/mods/ToolModMenu.kt:168-175 | a refused item cancels; an accepted mod ends up installed and its addition fires, with no removal of it |
| ToolMods.HandleRemoveItem | server/src/main/kotlin/net/horizonsend/ion/server/features/custom/items/type/tool/mods/ToolModMenu.kt:177-180 | the clicked stack and every equal one leave the menu; an item-backed mod in it is uninstalled and its removal fires if it was installed |
| ToolMods.Without | server/src/main/kotlin/net/horizonsend/ion/server/features/custom/items/type/tool/mods/ToolModMenu.kt:179 | the contents without any stack equal to the clicked one |
| ToolMods.HandleSwapItem | server/src/main/kotlin/net/horizonsend/ion/server/features/custom/items/type/tool/mods/ToolModMenu.kt:182-192 | a refused item cancels; an accepted one replaces the slot, is installed and fires its addition |
| AreaOfEffect.ModLeft | server/src/main/kotlin/net/horizonsend/ion/server/features/custom/items/type/tool/mods/general/AOEDMod.kt:66-74 | defined exactly for the six cardinal faces and always horizontal; on horizontal faces it is the face to the left |
| AreaOfEffect.ModUp | server/src/main/kotlin/net/horizonsend/ion/server/features/custom/items/type/tool/mods/general/AOEDMod.kt:76-84 | defined exactly for the six cardinal faces: up for horizontal faces, north for up and south for down |
| AreaOfEffect.ModLeftCycle | server/src/main/kotlin/net/horizonsend/ion/server/features/custom/items/type/tool/mods/general/AOEDMod.kt:66-70 | turning left four times comes back round, passing the opposite face after two turns |
| AreaOfEffect.LeftUpPerpendicular | server/src/main/kotlin/net/horizonsend/ion/server/features/custom/items/type/tool/mods/general/AOEDMod.kt:54-84 | for every cardinal side, the left and up directions and the side itself lie on three different axes |
| AreaOfEffect.Row | server/src/main/kotlin/net/horizonsend/ion/server/features/custom/items/type/tool/mods/general/AOEDMod.kt:56-60 | one row of 2r+1 blocks, stepping up-down from -r to r |
| AreaOfEffect.RowsLength | server/src/main/kotlin/net/horizonsend/ion/server/features/custom/items/type/tool/mods/general/AOEDMod.kt:53-61 | the collected rows hold (number of rows) x (2r+1) blocks |
| AreaOfEffect.RowMembership | server/src/main/kotlin/net/horizonsend/ion/server/features/custom/items/type/tool/mods/general/AOEDMod.kt:56-60 | a block is in a row exactly when it is one of its up-down offsets within the radius |
| AreaOfEffect.RowsMembership | server/src/main/kotlin/net/horizonsend/ion/server/features/custom/items/type/tool/mods/general/AOEDMod.kt:53-61 | a block is collected exactly when it is at some left-right and up-down offset within the bounds |
| AreaOfEffect.ModifyBlockList | server/src/main/kotlin/net/horizonsend/ion/server/features/custom/items/type/tool/mods/general/AOEDMod.kt:48-64 | the list becomes the (2r+1) x (2r+1) square around the origin in the plane facing the side, in loop order; an empty list for a negative radius; an error for a non-cardinal side with r >= 0 |
| AreaOfEffect.Square | server/src/main/kotlin/net/horizonsend/ion/server/features/custom/items/type/tool/mods/general/AOEDMod.kt:48-64 | the nested loops yield (2r+1)^2 blocks, exactly those at offsets -r..r along both the left and up faces |
| AreaOfEffect.BlockAtInjective | server/src/main/kotlin/net/horizonsend/ion/server/features/custom/items/type/tool/mods/general/AOEDMod.kt:53-60 | different offset pairs give different blocks, so the square has no repeats |
| AreaOfEffect.OriginInSquare | server/src/main/kotlin/net/horizonsend/ion/server/features/custom/items/type/tool/mods/general/AOEDMod.kt:53-60 | the origin itself is in the square |
| AreaOfEffect.AOEMod | server/src/main/kotlin/net/horizonsend/ion/server/features/custom/items/type/tool/mods/general/AOEDMod.kt:21-46 | identifier AOE_r, incompatible with itself and vein miner, applicable to power drills and hoes |
| AreaOfEffect.IdentifierInjective | server/src/main/kotlin/net/horizonsend/ion/server/features/custom/items/type/tool/mods/general/AOEDMod.kt:30 | different radii give different identifiers |
| AreaOfEffect.AreaModsExclusive | server/src/main/kotlin/net/horizonsend/ion/server/features/custom/items/type/tool/mods/general/AOEDMod.kt:41-44 | with an area mod installed, no further area mod or vein miner can be added |
| BlockAccess.BlockFaceOf | server/src/main/kotlin/net/horizonsend/ion/server/miscellaneous/utils/NMS.kt:23-31 | every direction maps to a cardinal face |
| BlockAccess.BlockFaceBijective | server/src/main/kotlin/net/horizonsend/ion/server/miscellaneous/utils/NMS.kt:23-31 | the mapping is one-to-one and reaches every cardinal face |
| BlockAccess.Bits | server/src/main/kotlin/net/horizonsend/ion/server/miscellaneous/utils/NMS.kt:36 | the unsigned 32-bit pattern of a signed integer, congruent to it modulo 2^32 |
| BlockAccess.FromBits | server/src/main/kotlin/net/horizonsend/ion/server/miscellaneous/utils/NMS.kt:36 | reading a 32-bit pattern back as a signed integer inverts Bits |
| BlockAccess.Wrap32 | server/src/main/kotlin/net/horizonsend/ion/server/miscellaneous/utils/NMS.kt:36 | 32-bit wrap-around: a signed 32-bit value congruent to the input, and the input itself when it already fits |
| BlockAccess.And15 | server/src/main/kotlin/net/horizonsend/ion/server/miscellaneous/utils/NMS.kt:36-51 | `x and 15` lies in 0..15 |
| BlockAccess.Shr4 | server/src/main/kotlin/net/horizonsend/ion/server/miscellaneous/utils/NMS.kt:36-49 | `x shr 4` is a 32-bit value |
| BlockAccess.ChunkSplit | server/src/main/kotlin/net/horizonsend/ion/server/miscellaneous/utils/NMS.kt:36-51 | (x shr 4) * 16 + (x and 15) == x for every 32-bit x, negatives included: the shift is floor division by 16 and the mask the non-negative remainder |
| BlockAccess.IsAir | server/src/main/kotlin/net/horizonsend/ion/server/miscellaneous/utils/NMS.kt:63 | true exactly for air, cave air, void air and light |
| BlockAccess.GetNMSBlockData | server/src/main/kotlin/net/horizonsend/ion/server/miscellaneous/utils/NMS.kt:35-37 | reads the chunk and local coordinates whose split recombines to x and z |
| BlockAccess.GetNMSBlockStateSafe | server/src/main/kotlin/net/horizonsend/ion/server/miscellaneous/utils/NMS.kt:43-55 | no answer below the minimum or above the maximum height, or in an unloaded chunk |
| BlockAccess.GetNMSBlockStateSafeAt | server/src/main/kotlin/net/horizonsend/ion/server/miscellaneous/utils/NMS.kt:57-61 | the position overload answers as the coordinate one |
| BlockAccess.SafeAgreesWithUnsafe | server/src/main/kotlin/net/horizonsend/ion/server/miscellaneous/utils/NMS.kt:43-55 | the safe lookup answers s exactly when the height is in range, the chunk is loaded and the plain lookup succeeds with s; a lookup error becomes no answer |
| BlockAccess.MaxHeightIsInside | server/src/main/kotlin/net/horizonsend/ion/server/miscellaneous/utils/NMS.kt:44-46 | a height equal to the maximum passes the guard |
| TriTurret.YFactor | server/src/main/kotlin/net/horizonsend/ion/server/features/multiblock/type/starship/weapon/turret/TriTurretMultiblock.kt:154-159 | 1 for the top turret and -1 for the bottom one |
| TriTurret.FirePointOffsets | server/src/main/kotlin/net/horizonsend/ion/server/features/multiblock/type/starship/weapon/turret/TriTurretMultiblock.kt:27-31 | three fire points, all at height four times the y factor: two blocks left and three forward, on the axis and four forward, two blocks right and three forward |
| TriTurret.FirePointsSymmetric | server/src/main/kotlin/net/horizonsend/ion/server/features/multiblock/type/starship/weapon/turret/TriTurretMultiblock.kt:27-31 | the three points are distinct and mirror each other across x = 0, the middle one on the axis and furthest forward |
| TriTurret.BottomMirrorsTop | server/src/main/kotlin/net/horizonsend/ion/server/features/multiblock/type/starship/weapon/turret/TriTurretMultiblock.kt:27-159 | the bottom turret's fire points are the top turret's with y negated |
| TriTurret.DisplayName | server/src/main/kotlin/net/horizonsend/ion/server/features/multiblock/type/starship/weapon/turret/TriTurretMultiblock.kt:22 | "Top" exactly when the y factor is 1, "Bottom" otherwise |
| TriTurret.DisplayNamesDiffer | server/src/main/kotlin/net/horizonsend/ion/server/features/multiblock/type/starship/weapon/turret/TriTurretMultiblock.kt:22-159 | the two turrets have different names |
| TriTurret.PilotOffset | server/src/main/kotlin/net/horizonsend/ion/server/features/multiblock/type/starship/weapon/turret/TriTurretMultiblock.kt:155-160 | the pilot sits two blocks forward on the axis, three blocks up on the top turret and four blocks down on the bottom one |
| TriTurret.PilotOffsetsNotMirrored | server/src/main/kotlin/net/horizonsend/ion/server/features/multiblock/type/starship/weapon/turret/TriTurretMultiblock.kt:155-160 | the bottom pilot offset is one lower than the mirror of the top one |
| Pathfinding.Center | server/src/main/kotlin/net/horizonsend/ion/server/features/starship/control/movement/AIPathfinding.kt:35-39 | the center of a section with 32-bit coordinates is computed with 32-bit arithmetic and fits in 32 bits |
| Pathfinding.CenterInOwnSection | server/src/main/kotlin/net/horizonsend/ion/server/features/starship/control/movement/AIPathfinding.kt:35-39 | the center is (16x+8, 16y+minHeight+8, 16z+8), lies in the node's own section and is 8 blocks into it |
| Pathfinding.EntryThenIndex | server/src/main/kotlin/net/horizonsend/ion/server/features/starship/control/movement/AIPathfinding.kt:250-277 | each of the 26 table entries is found back at its own index |
| Pathfinding.IndexThenEntry | server/src/main/kotlin/net/horizonsend/ion/server/features/starship/control/movement/AIPathfinding.kt:250-277 | every offset touching the origin is one of the 26 table entries |
| Pathfinding.AdjacentIsNeighbourhood | server/src/main/kotlin/net/horizonsend/ion/server/features/starship/control/movement/AIPathfinding.kt:250-277 | the table has 26 distinct offsets and they are exactly the non-zero offsets within one step on every axis |
| Pathfinding.GetNeighbors | server/src/main/kotlin/net/horizonsend/ion/server/features/starship/control/movement/AIPathfinding.kt:205-218 | exactly the 26 cells of the 3x3x3 cube around the node, the node itself excluded |
| Pathfinding.CheckNavigability | server/src/main/kotlin/net/horizonsend/ion/server/features/starship/control/movement/AIPathfinding.kt:44-72 | one node per requested height in the chunk's column, navigable exactly when the section exists and holds only air |
| Pathfinding.ChunkFor | server/src/main/kotlin/net/horizonsend/ion/server/features/starship/control/movement/AIPathfinding.kt:84 | no chunk exactly when it is not loaded and loading is not allowed |
| Pathfinding.Columns | server/src/main/kotlin/net/horizonsend/ion/server/features/starship/control/movement/AIPathfinding.kt:76 | the chunk columns of the requested sections, each once |
| Pathfinding.SectionsIn | server/src/main/kotlin/net/horizonsend/ion/server/features/starship/control/movement/AIPathfinding.kt:76 | the requested sections of one column |
| Pathfinding.Heights | server/src/main/kotlin/net/horizonsend/ion/server/features/starship/control/movement/AIPathfinding.kt:95 | the heights of a column's sections, in order |
| Pathfinding.UnionAsWritten | server/src/main/kotlin/net/horizonsend/ion/server/features/starship/control/movement/AIPathfinding.kt:81-98 | the nodes any column contributes when the missing-chunk branch walks every requested section |
| Pathfinding.Union | server/src/main/kotlin/net/horizonsend/ion/server/features/starship/control/movement/AIPathfinding.kt:81-98 | the nodes any column contributes when the missing-chunk branch walks only that column's sections |
| Pathfinding.ColumnNodesExactly | server/src/main/kotlin/net/horizonsend/ion/server/features/starship/control/movement/AIPathfinding.kt:81-98 | a column contributes exactly the node of each of its own requested sections |
| Pathfinding.SearchSections | server/src/main/kotlin/net/horizonsend/ion/server/features/starship/control/movement/AIPathfinding.kt:75-101 | the corrected search: each requested section is answered by exactly the node `NodeFor` describes and nothing else |
| Pathfinding.SearchSectionsAsWritten | server/src/main/kotlin/net/horizonsend/ion/server/features/starship/control/movement/AIPathfinding.kt:75-101 | the search as written holds every node of the corrected one, and no more when every requested chunk is available |
| Pathfinding.SearchSectionsAsWrittenExactly | server/src/main/kotlin/net/horizonsend/ion/server/features/starship/control/movement/AIPathfinding.kt:75-101 | as written, the search holds the `NodeFor` node of every requested section and, once any requested chunk is unavailable, an unnavigable node for every requested section as well |
| Pathfinding.UnionWithin | server/src/main/kotlin/net/horizonsend/ion/server/features/starship/control/movement/AIPathfinding.kt:81-98 | column by column, the as-written nodes include the corrected ones and equal them where the chunk is available |
| Pathfinding.AsWrittenMarksLoadedSectionsUnnavigable | server/src/main/kotlin/net/horizonsend/ion/server/features/starship/control/movement/AIPathfinding.kt:86-90 | as written, one missing chunk adds an unnavigable node for every requested section, including sections of loaded chunks that are navigable, so the result holds both verdicts for one place |
| Pathfinding.YColumn | server/src/main/kotlin/net/horizonsend/ion/server/features/starship/control/movement/AIPathfinding.kt:117 | the heights lo..hi of one column, in order |
| Pathfinding.SurroundingPositions | server/src/main/kotlin/net/horizonsend/ion/server/features/starship/control/movement/AIPathfinding.kt:104-122 | the (2r+1)^3 positions of the cube of radius r around the center, and none for a negative radius |
| Pathfinding.Plane | server/src/main/kotlin/net/horizonsend/ion/server/features/starship/control/movement/AIPathfinding.kt:117 | one x-slice of the cube, (2r+1)^2 positions |
| Pathfinding.Untracked | server/src/main/kotlin/net/horizonsend/ion/server/features/starship/control/movement/AIPathfinding.kt:141-142 | the cube positions not already tracked |
| Pathfinding.AdjustTrackedSections | server/src/main/kotlin/net/horizonsend/ion/server/features/starship/control/movement/AIPathfinding.kt:125-147 | as written: with nothing tracked, the search-distance cube is searched; otherwise tracked sections outside the radius-5 cube are dropped, those inside kept, every position of that cube ends up covered and only untracked positions are searched; each new node is the one `NodeFor` describes or, when some searched chunk is unavailable, an unnavigable twin |
| Pathfinding.AdjustTrackedSectionsCorrected | server/src/main/kotlin/net/horizonsend/ion/server/features/starship/control/movement/AIPathfinding.kt:125-147 | the same on the corrected search, where every node added is the one `NodeFor` describes |
| Pathfinding.EstimatedCost | server/src/main/kotlin/net/horizonsend/ion/server/features/starship/control/movement/AIPathfinding.kt:233-234 | the squared distance between the two nodes' locations: never negative and zero only at the same location |
| Pathfinding.Candidates | server/src/main/kotlin/net/horizonsend/ion/server/features/starship/control/movement/AIPathfinding.kt:187-193 | the known neighbours that are navigable and not closed |
| Pathfinding.FirstCheapest | server/src/main/kotlin/net/horizonsend/ion/server/features/starship/control/movement/AIPathfinding.kt:194-195 | `minByOrNull`: none for no candidates, else the first candidate of least cost |
| Pathfinding.SearchNeighbors | server/src/main/kotlin/net/horizonsend/ion/server/features/starship/control/movement/AIPathfinding.kt:181-196 | throws when no known node neighbours the current one; no answer when all neighbours are unnavigable or closed; otherwise a navigable, open neighbour of least cost |
| Pathfinding.FirstAt | server/src/main/kotlin/net/horizonsend/ion/server/features/starship/control/movement/AIPathfinding.kt:157-160 | `first { location == … }`: the first known node at the location, and an error when there is none |
| Pathfinding.Closed | server/src/main/kotlin/net/horizonsend/ion/server/features/starship/control/movement/AIPathfinding.kt:159 | the known nodes that are not navigable |
| Pathfinding.WalkExtend | server/src/main/kotlin/net/horizonsend/ion/server/features/starship/control/movement/AIPathfinding.kt:171-173 | adding a navigable known neighbour keeps the list a walk |
| Pathfinding.FindNavigationNodes | server/src/main/kotlin/net/horizonsend/ion/server/features/starship/control/movement/AIPathfinding.kt:150-179 | fails when the origin or destination is not tracked; otherwise each step enters the neighbour `searchNeighbors` picks, the walk is at most 22 long and ends at the destination, at the iteration limit or where no open neighbour is left; any other failure comes from a greedy walk whose last node has no known neighbour |
| Pathfinding.Walk | server/src/main/kotlin/net/horizonsend/ion/server/features/starship/control/movement/AIPathfinding.kt:164-178 | the loop: a walk from the origin in which each step is the neighbour `searchNeighbors` picks and the destination appears only at the end, at most 22 long; it fails only where a greedy walk reaches a node with no known neighbour |
| Pathfinding.GreedyPrefixesAgree | server/src/main/kotlin/net/horizonsend/ion/server/features/starship/control/movement/AIPathfinding.kt:164-178 | two greedy walks from the same origin agree on every position both have |
| Pathfinding.WalkIsDetermined | server/src/main/kotlin/net/horizonsend/ion/server/features/starship/control/movement/AIPathfinding.kt:164-178 | a greedy walk that stops where the loop stops is unique: two of them are the same walk |
| Pathfinding.GreedyExtend | server/src/main/kotlin/net/horizonsend/ion/server/features/starship/control/movement/AIPathfinding.kt:171-173 | appending the neighbour `searchNeighbors` picks keeps a walk greedy |
| StarshipTypes.Ordinal | server/src/main/kotlin/net/horizonsend/ion/server/features/starship/StarshipType.kt:60-703 | every type has a position below the number of types (36) |
| StarshipTypes.OrdinalNumbersEntries | server/src/main/kotlin/net/horizonsend/ion/server/features/starship/StarshipType.kt:60-703 | positions and types correspond one to one: the type at a type's position is itself, and the position of the type at i is i |
| StarshipTypes.EntryAtOrdinal | server/src/main/kotlin/net/horizonsend/ion/server/features/starship/StarshipType.kt:60-703 | the type at a type's declaration position is that type |
| StarshipTypes.OrdinalOfEntry | server/src/main/kotlin/net/horizonsend/ion/server/features/starship/StarshipType.kt:60-703 | the type declared at position i has position i |
| StarshipTypes.Entries | server/src/main/kotlin/net/horizonsend/ion/server/features/starship/StarshipType.kt:60-703 | `entries`: the 36 types in declaration order |
| StarshipTypes.EntriesListEveryTypeOnce | server/src/main/kotlin/net/horizonsend/ion/server/features/starship/StarshipType.kt:60-703 | every type is listed, and none twice |
| StarshipTypes.SizesAreOrdered | server/src/main/kotlin/net/horizonsend/ion/server/features/starship/StarshipType.kt:60-703 | every type's minimum size is positive and below its maximum size |
| StarshipTypes.OnlyEventShip | server/src/main/kotlin/net/horizonsend/ion/server/features/starship/StarshipType.kt:686 | the unidentified ship is the only event ship |
| StarshipTypes.CanUse | server/src/main/kotlin/net/horizonsend/ion/server/features/starship/StarshipType.kt:718-721 | true exactly when the player may pilot any ship, holds the type's override permission, or has at least the type's level |
| StarshipTypes.CanPilotIn | server/src/main/kotlin/net/horizonsend/ion/server/features/starship/StarshipType.kt:723-728 | true exactly when the world has every required flag and none of the disallowed ones |
| StarshipTypes.SpaceOnlyTypes | server/src/main/kotlin/net/horizonsend/ion/server/features/starship/StarshipType.kt:723-728 | battlecruisers and barges need a space world; every other type may be piloted anywhere |
| StarshipTypes.WorldFlagsOfTable | server/src/main/kotlin/net/horizonsend/ion/server/features/starship/StarshipType.kt:50-51 | no type sets disallowed world flags and only battlecruisers and barges override the empty required set, with a space world |
| StarshipTypes.FilterUnlocked | server/src/main/kotlin/net/horizonsend/ion/server/features/starship/StarshipType.kt:731-733 | the unlocked types among the given ones, in order |
| StarshipTypes.GetUnlockedTypes | server/src/main/kotlin/net/horizonsend/ion/server/features/starship/StarshipType.kt:731-734 | exactly the usable types, less event ships for a player without the event-ship permission, sorted by ascending level and a permutation of the filtered declaration list |
| StarshipTypes.UnlockedTiesKeepDeclarationOrder | server/src/main/kotlin/net/horizonsend/ion/server/features/starship/StarshipType.kt:734 | types of equal level keep their declaration order |
| StarshipTypes.AnyShipUnlocksAllButEvent | server/src/main/kotlin/net/horizonsend/ion/server/features/starship/StarshipType.kt:718-734 | with the any-ship permission and without the event-ship permission, every type but the unidentified ship is unlocked |
| CustomItems.LoreManagers | server/src/main/kotlin/net/horizonsend/ion/server/features/custom/NewCustomItem.kt:33 | exactly the components that are lore managers, no more of them than components |
| CustomItems.ManagersInOrder | server/src/main/kotlin/net/horizonsend/ion/server/features/custom/NewCustomItem.kt:33 | a permutation of the lore managers with priorities never increasing; managers of equal priority keep their declaration order |
| CustomItems.Assemble | server/src/main/kotlin/net/horizonsend/ion/server/features/custom/NewCustomItem.kt:38-46 | the lore is each manager's lines in turn, followed by one separator when that manager asks for one and is not the last; its length is the lines plus those separators |
| CustomItems.AssembleConcat | server/src/main/kotlin/net/horizonsend/ion/server/features/custom/NewCustomItem.kt:38-46 | the lore of two runs of managers is the first run's lore, a separator when the first run's last manager asks for one and the second run is not empty, then the second run's lore |
| CustomItems.AssembleSingle | server/src/main/kotlin/net/horizonsend/ion/server/features/custom/NewCustomItem.kt:41-45 | a single manager contributes exactly its lines: the last manager never adds a separator |
| CustomItems.AssembleLore | server/src/main/kotlin/net/horizonsend/ion/server/features/custom/NewCustomItem.kt:32-49 | the same blocks of lines for the managers in priority order; no lore managers, no lore |
| CustomItems.NoSeparatorsIsConcatenation | server/src/main/kotlin/net/horizonsend/ion/server/features/custom/NewCustomItem.kt:38-46 | without separator requests the lore is every manager's lines, one after the other |
| CustomItems.EndsWithLastManagersLines | server/src/main/kotlin/net/horizonsend/ion/server/features/custom/NewCustomItem.kt:43 | no separator follows the last manager: when it has lines, the lore ends with its last line |
| CustomItems.TrailingSeparatorAfterEmptyManager | server/src/main/kotlin/net/horizonsend/ion/server/features/custom/NewCustomItem.kt:41-45 | when the last manager has no lines, a separator requested by the one before ends the lore |
| CustomItems.GetAttributes | server/src/main/kotlin/net/horizonsend/ion/server/features/custom/NewCustomItem.kt:51 | every component's attributes, concatenated in component order; an attribute is in the result exactly when some component carries it |
| CustomItems.GetAttributesConcat | server/src/main/kotlin/net/horizonsend/ion/server/features/custom/NewCustomItem.kt:51 | the attributes of two runs of components are the first run's followed by the second's |
| CustomItems.GetAttributesSingle | server/src/main/kotlin/net/horizonsend/ion/server/features/custom/NewCustomItem.kt:51 | one component contributes exactly its own attributes |
| DataMigrators.VersionsAreIndices | server/src/main/kotlin/net/horizonsend/ion/server/data/migrator/DataMigrators.kt:42-904 | versions 0 to 6 are registered in order at their own indices; the last index is 6 |
| DataMigrators.GetVersions | server/src/main/kotlin/net/horizonsend/ion/server/data/migrator/DataMigrators.kt:939-941 | defined exactly for -1 <= v <= 6 (otherwise the list slice throws), and then the versions v+1 to 6 in order |
| DataMigrators.GetVersionsSelectsNewer | server/src/main/kotlin/net/horizonsend/ion/server/data/migrator/DataMigrators.kt:939-941 | a version is selected exactly when it is newer than v; the last version selects none and version 0 selects 1 to 6 |
| DataMigrators.ApplyAllConcat | server/src/main/kotlin/net/horizonsend/ion/server/data/migrator/DataMigrators.kt:946-948 | applying two runs of versions one after the other is applying their concatenation |
| DataMigrators.MigrateInventory | server/src/main/kotlin/net/horizonsend/ion/server/data/migrator/DataMigrators.kt:943-949 | block, GUI and holder-less inventories are left alone; other inventories get every version in order, and the holder never changes |
| DataMigrators.MigrateInSteps | server/src/main/kotlin/net/horizonsend/ion/server/data/migrator/DataMigrators.kt:939-949 | migrating from a to b and then from b to the last version is migrating from a in one go |
| DataMigrators.MigrateChunk | server/src/main/kotlin/net/horizonsend/ion/server/data/migrator/DataMigrators.kt:910-927 | a chunk at the last version is unchanged; otherwise it fails exactly when the version selection throws, and else every inventory is migrated by the missing versions and the chunk records the last version |
| DataMigrators.MissingChunkVersionIsZero | server/src/main/kotlin/net/horizonsend/ion/server/data/migrator/DataMigrators.kt:911 | a chunk without a stored version counts as version 0 and is migrated to the last version |
| DataMigrators.MigrateChunkIdempotent | server/src/main/kotlin/net/horizonsend/ion/server/data/migrator/DataMigrators.kt:910-927 | a migrated chunk is left alone next time |
| DataMigrators.MigratePlayer | server/src/main/kotlin/net/horizonsend/ion/server/data/migrator/DataMigrators.kt:929-937 | the same gating for a player's inventory and stored version |
| DataMigrators.MigratePlayerIdempotent | server/src/main/kotlin/net/horizonsend/ion/server/data/migrator/DataMigrators.kt:931-936 | a migrated player is left alone next time |
| DataMigrators.OnOpenInventory | server/src/main/kotlin/net/horizonsend/ion/server/data/migrator/DataMigrators.kt:961-964 | an opened inventory gets every version from 1 to 6, whatever it was migrated with before, unless its holder is skipped |
| AutoCrafter.Filled | server/src/main/kotlin/net/horizonsend/ion/server/features/multiblock/type/autocrafter/AutoCrafterMultiblock.kt:185 | `filterNotNull`: exactly the items present in the grid's slots |
| AutoCrafter.Distinct | server/src/main/kotlin/net/horizonsend/ion/server/features/multiblock/type/autocrafter/AutoCrafterMultiblock.kt:185 | `distinct`: the same items, each once |
| AutoCrafter.PowerUsage | server/src/main/kotlin/net/horizonsend/ion/server/features/multiblock/type/autocrafter/AutoCrafterMultiblock.kt:185 | 15 power per distinct ingredient of the grid |
| AutoCrafter.FirstSpare | server/src/main/kotlin/net/horizonsend/ion/server/features/multiblock/type/autocrafter/AutoCrafterMultiblock.kt:244-252 | the first input slot, from a given one on, holding an item similar to the ingredient with an item not yet reserved; none when no such slot exists |
| AutoCrafter.Reserve | server/src/main/kotlin/net/horizonsend/ion/server/features/multiblock/type/autocrafter/AutoCrafterMultiblock.kt:240-269 | when every ingredient is found, the reservation stays within each slot's amount, only grows, and reserves one item per filled grid slot |
| AutoCrafter.ReserveOne | server/src/main/kotlin/net/horizonsend/ion/server/features/multiblock/type/autocrafter/AutoCrafterMultiblock.kt:248-268 | reserving one more item of a spare slot keeps the reservation valid and grows it by one |
| AutoCrafter.ReserveFailsWithoutIngredient | server/src/main/kotlin/net/horizonsend/ion/server/features/multiblock/type/autocrafter/AutoCrafterMultiblock.kt:254-258 | an ingredient with no similar item anywhere in the input ends the search with nothing found |
| AutoCrafter.ReservePerKind | server/src/main/kotlin/net/horizonsend/ion/server/features/multiblock/type/autocrafter/AutoCrafterMultiblock.kt:240-269 | when the reservation succeeds, each kind has one more item reserved for every grid slot of that kind |
| AutoCrafter.ReserveSucceeds | server/src/main/kotlin/net/horizonsend/ion/server/features/multiblock/type/autocrafter/AutoCrafterMultiblock.kt:240-269 | first-fit reservation never gets stuck: when every kind's supply covers what is reserved plus what the remaining grid slots ask for, every ingredient is found |
| AutoCrafter.ReservedWithinSupply | server/src/main/kotlin/net/horizonsend/ion/server/features/multiblock/type/autocrafter/AutoCrafterMultiblock.kt:249 | a reservation within each slot's amount never takes more of a kind than the input holds |
| AutoCrafter.SpareWhileShort | server/src/main/kotlin/net/horizonsend/ion/server/features/multiblock/type/autocrafter/AutoCrafterMultiblock.kt:244-252 | while less of a kind is reserved than the input holds, some slot of that kind has an item to spare |
| AutoCrafter.Consume | server/src/main/kotlin/net/horizonsend/ion/server/features/multiblock/type/autocrafter/AutoCrafterMultiblock.kt:286-292 | the reserved amounts are taken from their slots, each slot keeps its material, unreserved slots are unchanged, and the total drops by the reservation |
| AutoCrafter.ConsumePerKind | server/src/main/kotlin/net/horizonsend/ion/server/features/multiblock/type/autocrafter/AutoCrafterMultiblock.kt:286-292 | taking the reservation lowers each kind's supply by exactly what is reserved of that kind |
| AutoCrafter.MissingIngredientFails | server/src/main/kotlin/net/horizonsend/ion/server/features/multiblock/type/autocrafter/AutoCrafterMultiblock.kt:254-258 | a grid ingredient missing from the input makes the reservation fail |
| AutoCrafter.ReservationOutcome | server/src/main/kotlin/net/horizonsend/ion/server/features/multiblock/type/autocrafter/AutoCrafterMultiblock.kt:238-274 | reserving the whole grid fails exactly when some kind is wanted more often than the input holds, and otherwise reserves per kind as many items as the grid has slots of it |
| AutoCrafter.RunCraftingIteration | server/src/main/kotlin/net/horizonsend/ion/server/features/multiblock/type/autocrafter/AutoCrafterMultiblock.kt:226-295 | 0 and nothing changed exactly when some ingredient kind runs short; -1 and nothing changed when the output is full; otherwise one result is added, each kind loses as many items as the grid has slots of it, and the power usage is returned |
| AutoCrafter.CraftingIterations | server/src/main/kotlin/net/horizonsend/ion/server/features/multiblock/type/autocrafter/AutoCrafterMultiblock.kt:189-199 | at most `iterations` crafts, each adding one result, taking each kind's grid count and costing the usage, never below zero power; fewer crafts than iterations only when the power no longer covers a craft or the current state cannot craft |
| AutoCrafter.Tick | server/src/main/kotlin/net/horizonsend/ion/server/features/multiblock/type/autocrafter/AutoCrafterMultiblock.kt:166-220 | not intact, below 15 power, or an invalid recipe: nothing changes; otherwise power drops by the usage per craft, the output gains one result per craft, each kind loses its grid count per craft, fewer crafts than iterations only when power or the inventories stop it, and power is written back exactly when it changed |
| FurnaceMachines.UseOne | server/src/main/kotlin/net/horizonsend/ion/server/features/multiblock/type/printer/PrinterMultiblock.kt:172 | `fuel.amount--`: one item less; the stack is gone when it reaches zero |
| FurnaceMachines.FurnaceTick | server/src/main/kotlin/net/horizonsend/ion/server/features/multiblock/type/printer/PrinterMultiblock.kt:157-178 | guards in the order furnace, output inventory, power, fuel, then space, each leaving the machine unchanged; a product that cannot be made throws; otherwise the product is added, one fuel is used and exactly the cost is taken |
| FurnaceMachines.TickKeepsPowerInRange | server/src/main/kotlin/net/horizonsend/ion/server/features/multiblock/type/printer/PrinterMultiblock.kt:163-174 | a tick keeps power within 0 and the capacity |
| Printers.PrinterTick | server/src/main/kotlin/net/horizonsend/ion/server/features/multiblock/type/printer/PrinterMultiblock.kt:157-178 | works exactly when the furnace and output are there, power is at least 250, the fuel is cobblestone and the product fits; then adds the product, uses one cobblestone and takes 250 power, staying within the 50,000 capacity |
| Printers.PrinterGuardOrder | server/src/main/kotlin/net/horizonsend/ion/server/features/multiblock/type/printer/PrinterMultiblock.kt:158-169 | each refusal status implies the earlier guards passed and its own failed |
| CarbonProcessors.CarbonOutput | server/src/main/kotlin/net/horizonsend/ion/server/features/multiblock/type/printer/CarbonProcessorMultiblock.kt:137-149 | with stained glass the output is the glass name with STAINED_GLASS replaced by CONCRETE, otherwise the fuel name without a trailing _POWDER; the output is one item of a known material, and an unknown name is an error, whose message names the missing concrete with stained glass and the glass block otherwise |
| CarbonProcessors.CarbonOutputNames | server/src/main/kotlin/net/horizonsend/ion/server/features/multiblock/type/printer/CarbonProcessorMultiblock.kt:137-149 | coloured glass gives that colour's concrete; without stained glass, coloured powder gives its concrete |
| CarbonProcessors.StainedGlassToConcrete | server/src/main/kotlin/net/horizonsend/ion/server/features/multiblock/type/printer/CarbonProcessorMultiblock.kt:141 | the name rewrite turns the stained glass of a colour into that colour's concrete |
| CarbonProcessors.ColoursLackS | server/src/main/kotlin/net/horizonsend/ion/server/features/multiblock/type/printer/CarbonProcessorMultiblock.kt:141 | no dye colour name contains an S, so the rewrite touches only the suffix |
| CarbonProcessors.CarbonOutputNeverThrows | server/src/main/kotlin/net/horizonsend/ion/server/features/multiblock/type/printer/CarbonProcessorMultiblock.kt:142-148 | when every concrete exists and the fuel is concrete powder, the output never throws |
| CarbonProcessors.CarbonTick | server/src/main/kotlin/net/horizonsend/ion/server/features/multiblock/type/printer/CarbonProcessorMultiblock.kt:115-135 | refuses below 100 power or without concrete powder, leaving the machine unchanged; a working tick adds one output item, uses one fuel and takes exactly 100 power |
| SpaceStations.ValidateName | server/src/main/kotlin/net/horizonsend/ion/server/command/nations/SpaceStationCommand.kt:123-139 | a name is accepted exactly when it is alphanumeric, 3 to 40 characters long and no nation station has it ignoring case; a non-alphanumeric name is refused with that reason first |
| SpaceStations.NationNameTaken | server/src/main/kotlin/net/horizonsend/ion/server/command/nations/SpaceStationCommand.kt:136 | true exactly when some nation station's name equals the given one ignoring case |
| SpaceStations.OnlyNationStationsBlockNames | server/src/main/kotlin/net/horizonsend/ion/server/command/nations/SpaceStationCommand.kt:136 | personal and settlement stations never block a name |
| SpaceStations.NameClashIgnoresCase | server/src/main/kotlin/net/horizonsend/ion/server/command/nations/SpaceStationCommand.kt:136 | a nation station whose name differs only in case blocks the name |
| SpaceStations.CheckRadius | server/src/main/kotlin/net/horizonsend/ion/server/command/nations/SpaceStationCommand.kt:142 | a radius is accepted exactly when it is between 15 and 10,000 |
| SpaceStations.CooldownWindow | server/src/main/kotlin/net/horizonsend/ion/server/command/nations/SpaceStationCommand.kt:82-100 | after forming at time t a player is held back exactly until t plus 30 minutes, other players are unaffected, and after abandoning (time reset to 0) the player is free again |
| SpaceStations.Abandon | server/src/main/kotlin/net/horizonsend/ion/server/command/nations/SpaceStationCommand.kt:377 | the player's last formation time becomes 0 and every other player's is kept |
| SpaceStations.Create | server/src/main/kotlin/net/horizonsend/ion/server/command/nations/SpaceStationCommand.kt:309-354 | succeeds exactly when the sender has the create permission, the world allows stations, they are not in combat, the name and radius are valid, the area is clear, they can pay and they acknowledged the exact cost; then the station is added with empty trust lists and manual trust, and the cost is paid |
| SpaceStations.CreateCommand | server/src/main/kotlin/net/horizonsend/ion/server/command/nations/SpaceStationCommand.kt:245-305 | refused during the formation cooldown and, for settlement and nation stations, without membership; on success the formation time is recorded, one station is added and the cost is paid |
| SpaceStations.Resize | server/src/main/kotlin/net/horizonsend/ion/server/command/nations/SpaceStationCommand.kt:389-423 | succeeds exactly when permitted, the new radius is valid, the area is clear, the sender can pay and acknowledged the exact cost; only the radius changes and the cost for the old and new radius is paid |
| SpaceStations.ResizeBack | server/src/main/kotlin/net/horizonsend/ion/server/command/nations/SpaceStationCommand.kt:389-423 | resizing back to the old radius at the acknowledged cost restores the station, and two resizes land on the second radius and charge both costs |
| SpaceStations.Trust | server/src/main/kotlin/net/horizonsend/ion/server/command/nations/SpaceStationCommand.kt:626-640 | succeeds exactly when the sender owns the station, the target resolves, the sender may manage it and the target is not yet trusted; the target is added to its list and the other lists are unchanged |
| SpaceStations.Untrust | server/src/main/kotlin/net/horizonsend/ion/server/command/nations/SpaceStationCommand.kt:706-720 | succeeds exactly when the sender owns the station, the target resolves, the sender may manage it and the target is trusted; the target is removed from its list and the other lists are unchanged |
| SpaceStations.TrustUntrustRoundTrip | server/src/main/kotlin/net/horizonsend/ion/server/command/nations/SpaceStationCommand.kt:626-720 | trusting then untrusting (or the reverse) restores the station, and doing either twice fails |
| SpaceStations.WithTrusted | server/src/main/kotlin/net/horizonsend/ion/server/command/nations/SpaceStationCommand.kt:626-720 | replaces one trust list and keeps the others and the station's identity |
| SpaceStations.SetTrustLevel | server/src/main/kotlin/net/horizonsend/ion/server/command/nations/SpaceStationCommand.kt:428-440 | succeeds exactly when the sender owns the station and the level differs; only the level changes |
| SpaceStations.SetTrustLevelRoundTrip | server/src/main/kotlin/net/horizonsend/ion/server/command/nations/SpaceStationCommand.kt:428-440 | setting the old level back gives the station back, and setting the same level twice is refused the second time |
| SpaceStations.DestinationKind | server/src/main/kotlin/net/horizonsend/ion/server/command/nations/SpaceStationCommand.kt:822-827 | personal, settlement and nation, in any case, name the three kinds; anything else names none |
| SpaceStations.Transfer | server/src/main/kotlin/net/horizonsend/ion/server/command/nations/SpaceStationCommand.kt:814-828 | succeeds only with permission, the word confirm and a destination of a different kind; only the kind and the owner change, and a personal transfer gives the station to the sender |
| SpaceStations.TransferTwiceFails | server/src/main/kotlin/net/horizonsend/ion/server/command/nations/SpaceStationCommand.kt:814-828 | a station cannot be transferred to the kind it already has |
| SpaceStations.AbandonCommand | server/src/main/kotlin/net/horizonsend/ion/server/command/nations/SpaceStationCommand.kt:372-385 | succeeds exactly when permitted; the station is removed and the player's formation time is reset |
| SpaceStations.Rename | server/src/main/kotlin/net/horizonsend/ion/server/command/nations/SpaceStationCommand.kt:787-796 | succeeds exactly when the sender owns the station and the new name is valid; only the name changes |
| SpaceStations.CreateKeepsNationNamesDistinct | server/src/main/kotlin/net/horizonsend/ion/server/command/nations/SpaceStationCommand.kt:136 | creating a station keeps nation station names distinct ignoring case |
| SpaceStations.RenameKeepsNationNamesDistinct | server/src/main/kotlin/net/horizonsend/ion/server/command/nations/SpaceStationCommand.kt:787-796 | renaming a station keeps nation station names distinct ignoring case |
| SpaceStations.TransferSkipsNameCheck | server/src/main/kotlin/net/horizonsend/ion/server/command/nations/SpaceStationCommand.kt:814-828 | a transfer to nation does not validate the name, so two nation stations can end up with the same name ignoring case |
| StarshipDealers.LastBuy | server/src/main/kotlin/net/horizonsend/ion/server/features/npcs/StarshipDealers.kt:82-90 | a purchase never made counts as one at time 0 |
| StarshipDealers.LoadShip | server/src/main/kotlin/net/horizonsend/ion/server/features/npcs/StarshipDealers.kt:79-129 | a purchase goes through exactly when the cooldown has passed (or protection bypasses it), the buyer's level reaches the ship type's and they can pay; it pays the price and records the time for this ship and buyer only; ships are told apart as whole configured records, as the source map is keyed by the ship object, not by its name |
| StarshipDealers.CooldownIsPerShipAndBuyer | server/src/main/kotlin/net/horizonsend/ion/server/features/npcs/StarshipDealers.kt:82-90 | after a purchase the same buyer cannot buy the same ship within its cooldown unless protection bypasses it, and other ships (any record that differs) and buyers are unaffected |
| StarshipDealers.NeverBoughtCooldown | server/src/main/kotlin/net/horizonsend/ion/server/features/npcs/StarshipDealers.kt:82-90 | a ship never bought holds a buyer back exactly while the clock is below its cooldown |
| StarshipDealers.Step | server/src/main/kotlin/net/horizonsend/ion/server/features/npcs/StarshipDealers.kt:170-176 | moves by the offsets and turns them round on the first step that leaves the world border |
| StarshipDealers.ResolveTarget | server/src/main/kotlin/net/horizonsend/ion/server/features/npcs/StarshipDealers.kt:131-180 | the first spot of the walk where the ship is not obstructed, within 5001 checks; otherwise the spot after the last check, which is never checked |
| StarshipDealers.ReversesAtMostOnce | server/src/main/kotlin/net/horizonsend/ion/server/features/npcs/StarshipDealers.kt:170-176 | the offsets are always the starting ones or their negation, and once turned the walk stays turned |
| StarshipDealers.StraightUntilBorder | server/src/main/kotlin/net/horizonsend/ion/server/features/npcs/StarshipDealers.kt:170-176 | until it turns, the walk goes in a straight line and every spot reached is inside the border |

## Left out

- Chat messages, notifications, logging, sign text and display updates are not modelled. Commands that only print something are also left out: station info and the trusted lists.
- Unseen collaborators are function parameters, each a pure function:
  - the block-key packing (`toBlockKey`) and the node factory;
  - node deserialization and the node's `loadIntoNetwork`;
  - the recipe lookup and `LegacyItemUtils.canFit`;
  - the printer's `getOutput`;
  - what each data version does to an item;
  - the space-station cost formula (`calculateCost`);
  - nation and settlement membership and permission lookups;
  - the obstruction and world-border tests of the ship dealer.
- `rightFace`, `leftFace` and `axis` are Ion extensions whose source is not part of this model. They are taken to turn N, E, S, W clockwise and to have no answer for vertical faces. The faces of Bukkit other than the six cardinal ones are one `NonCardinal` value.
- Relation building calls each node's `buildRelations`; its effect on the node is left out. Consolidation and graph building are stubs in the source and are modelled as steps that change nothing.
- ChunkNetwork.LoadAll: what a node's `loadIntoNetwork` writes is the loader parameter; a throwing load keeps its partial writes, and the exception itself is only a flag.
- The float-based destination projection of the pathfinding, and the A* bookkeeping beyond the greedy step, are left out.
- Pathfinding.EstimatedCost: computed on unbounded integers, without the 32-bit wrap-around of the source's `Int` arithmetic. The wrap cannot happen for coordinates inside a Minecraft world.
- The tool-mod menu's click dispatch (`handleClick`, drag handling, number-key swaps) is left out. Only the add, remove and swap handlers it calls are modelled.
- The block-structure shapes of the multiblocks (`buildStructure`) are left out.
- The station's `checkDimensions` distance checks against other stations and claims are the boolean `clear`.
- The `requireEconomyEnabled` gate and the world lookup failure in `onResize` are left out.
- Money is an integer. Vault keeps balances as doubles.
- The ship dealer's random starting offsets are parameters. The purchase time recorded is the time the paste callback runs; it is the parameter `paidAt`.
- StarshipDealers.Ship holds only the fields the purchase gate reads; the configuration class behind it is not part of this model. Purchase times are keyed by this record, so two configured ships that agree on these fields but differ in others would share a cooldown here.
- SpaceStations.Resize: shrinking refunds nothing, and a negative cost from the formula is accepted as written.
- CarbonProcessors.CarbonOutput: `isStainedGlass` and `isConcretePowder` are the sixteen dye colours' blocks. Material names are plain strings, and `Material.getMaterial` is membership in a given set.
- Text.ParseInt: accepts ASCII digits only. Kotlin's `toInt` also accepts the other Unicode decimal digits.
- Text.IsAlphanumeric: accepts ASCII letters and digits only, and the empty string. The `isAlphanumeric` extension the name check calls is not part of this model; if it accepts other Unicode letters and digits, SpaceStations.ValidateName refuses names the source accepts.
- Text.Lower: lower-cases ASCII letters only. Kotlin's `lowercase` and `equals(ignoreCase = true)` also fold other letters.
- StarshipTypes.GetUnlockedTypes: `sortedBy` is modelled as a stable insertion sort over the declaration order; the player (permissions and level) is a plain record.
- Concurrency is not modelled: async commands, the chunk table's concurrent map, and ticking threads. The table's iteration order is a parameter listing every key once.

## Findings

| source | as written | input that shows it | evidently intended | confidence | as-written member | corrected member |
|---|---|---|---|---|---|---|
| server/src/main/kotlin/net/horizonsend/ion/server/features/starship/control/movement/AIPathfinding.kt:86-90 | when a column's chunk is not loaded, `searchSections` adds an unnavigable node for every requested section (`sections`), not only the sections of that column (`sectionsList`) | sections (0,0,0) and (1,0,0), chunk (0,0) not loaded, chunk (1,0) loaded with section 0 empty: the result holds both SectionNode((1,0,0), false) and SectionNode((1,0,0), true) | only the missing column's own sections are marked unnavigable, giving one node per requested section | not executed | Pathfinding.AsWrittenMarksLoadedSectionsUnnavigable, Pathfinding.AdjustTrackedSections | Pathfinding.SearchSections, Pathfinding.AdjustTrackedSectionsCorrected |
