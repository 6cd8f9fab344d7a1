/** Transport nodes and the persistent data they are stored in, with the
    behaviour of the inverted directional power node: which neighbours it may
    pass power to, and how it stores and reloads its position. */
module TransportNodes {
  import opened Common

  /** A packed block position (`BlockKey`, a Kotlin `Long`). */
  type BlockKey = int

  /** Which grid a node belongs to. */
  datatype GridType = Power | Fluid | Item

  /** The node classes that matter to the transfer rule; every other class
      is `OtherNode`, told apart by its name. */
  datatype NodeKind =
    | EndRodNode
    | PowerExtractorNode
    | SolarPanelNode
    | InvertedDirectionalNode
    | OtherNode(name: string)

  datatype Node = Node(kind: NodeKind, position: BlockKey)

  /** The inverted directional node always belongs to the power grid. */
  const InvertedNodeGrid: GridType := Power

  /** Keys of the persistent data containers involved. */
  datatype DataKey = NodeCoveredPositions | Nodes | PowerTransport | NamedKey(name: string)

  /** Values of a persistent data container, by persistent data type. */
  datatype Tag =
    | LongTag(long: int)
    | ContainerTag(entries: map<DataKey, Tag>)
    | ContainerArrayTag(items: seq<Tag>)

  type Container = map<DataKey, Tag>

  /** `isTransferableTo`: the node never passes power to an end-rod node, a
      power extractor or a solar panel, and passes it to every other node. */
  function IsTransferableTo(self: Node, target: Node): (r: bool)
    ensures r <==> target.kind !in {EndRodNode, PowerExtractorNode, SolarPanelNode}
  {
    if target.kind.EndRodNode? then false
    else !target.kind.PowerExtractorNode? && !target.kind.SolarPanelNode?
  }

  /** The verdict depends only on the target's kind: neither node's position
      nor the other node's kind enters it. */
  lemma TransferDependsOnlyOnTargetKind(a: Node, b: Node, a2: Node, b2: Node)
    requires b.kind == b2.kind
    ensures IsTransferableTo(a, b) == IsTransferableTo(a2, b2)
  {
  }

  /** `storeData`: writes the position as a long under the covered-positions
      key. */
  function StoreData(pdc: Container, self: Node): (r: Container)
    ensures r.Keys == pdc.Keys + {NodeCoveredPositions}
    ensures forall k :: k in pdc && k != NodeCoveredPositions ==> r[k] == pdc[k]
  {
    pdc[NodeCoveredPositions := LongTag(self.position)]
  }

  /** `loadData`: reads the position back; a missing entry (the `!!`) and an
      entry of another type are both errors. */
  function LoadData(pdc: Container, self: Node): (r: Result<Node>)
    ensures r.Ok? <==> NodeCoveredPositions in pdc && pdc[NodeCoveredPositions].LongTag?
    ensures r.Ok? ==> r.value.kind == self.kind && r.value.position == pdc[NodeCoveredPositions].long
  {
    if NodeCoveredPositions !in pdc then Fail("covered positions entry missing")
    else match pdc[NodeCoveredPositions]
      case LongTag(v) => Ok(self.(position := v))
      case _ => Fail("covered positions entry is not a long")
  }

  /** Storing and then loading restores the stored position, whatever the
      container held before and whatever position the loading node had. */
  lemma StoreLoadRoundTrip(pdc: Container, stored: Node, loading: Node)
    requires loading.kind == stored.kind
    ensures LoadData(StoreData(pdc, stored), loading) == Ok(stored)
  {
  }
}
