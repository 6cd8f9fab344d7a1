/** The per-chunk transport network: a table of nodes keyed by packed block
    positions, lookup, loading and saving through the chunk's persistent data
    container, the build sequence and the scan of one chunk section.

    The packing function (`toBlockKey`), the node factory, node
    deserialization and the node's own `loadIntoNetwork` are not part of this
    model; they are parameters. */
module ChunkNetwork {
  import opened Common
  import opened TransportNodes

  /** `toBlockKey`: packs a block position into one key. */
  type Packer = (int, int, int) -> BlockKey

  ghost predicate Injective(pack: Packer)
  {
    forall x1, y1, z1, x2, y2, z2 ::
      pack(x1, y1, z1) == pack(x2, y2, z2) ==> x1 == x2 && y1 == y2 && z1 == z2
  }

  /** The node table. A node covering several positions is stored under
      each of them, so one node can appear under several keys. */
  type NodeTable = map<BlockKey, Node>

  /** `getNode(x, y, z)`: the node stored under the packed key of the
      position, if any. */
  function GetNode(nodes: NodeTable, pack: Packer, x: int, y: int, z: int): (r: Option<Node>)
    ensures r.Some? <==> pack(x, y, z) in nodes
    ensures r.Some? ==> r.value == nodes[pack(x, y, z)]
  {
    var key := pack(x, y, z);
    if key in nodes then Some(nodes[key]) else None
  }

  /** With an injective packing, storing a node at one position never changes
      what is found at another. */
  lemma GetNodeOtherPosition(nodes: NodeTable, pack: Packer, p: Vec3, q: Vec3, n: Node)
    requires Injective(pack) && p != q
    ensures GetNode(nodes[pack(p.x, p.y, p.z) := n], pack, q.x, q.y, q.z) == GetNode(nodes, pack, q.x, q.y, q.z)
    ensures GetNode(nodes[pack(p.x, p.y, p.z) := n], pack, p.x, p.y, p.z) == Some(n)
  {
  }

  /** A block snapshot read from the world: its position and block data. */
  datatype Snapshot = Snapshot(x: int, y: int, z: int, blockData: string)

  /** A call `nodeFactory.create(key, block)`; what the factory does with it
      is outside this model. */
  datatype FactoryCall = FactoryCall(key: BlockKey, block: Snapshot)

  /** `createNodeFromBlock`: hands the factory the packed key of the
      snapshot's own position. */
  function CreateNodeFromBlock(pack: Packer, block: Snapshot): (c: FactoryCall)
    ensures c.block == block
    ensures c.key == pack(block.x, block.y, block.z)
  {
    FactoryCall(pack(block.x, block.y, block.z), block)
  }

  /** Two snapshots at different positions never share a factory key. */
  lemma CreateNodeKeysDistinct(pack: Packer, a: Snapshot, b: Snapshot)
    requires Injective(pack)
    requires (a.x, a.y, a.z) != (b.x, b.y, b.z)
    ensures CreateNodeFromBlock(pack, a).key != CreateNodeFromBlock(pack, b).key
  {
  }

  /** Node deserialization (`TransportNode.load`), which may throw. */
  type Deserializer = Tag -> Result<Node>

  /** What loading one node into the table (`loadIntoNetwork`) leaves
      behind: the table as far as the load got, and whether it threw. A load
      that throws keeps whatever it wrote before throwing. */
  datatype LoadOutcome = LoadOutcome(table: NodeTable, threw: bool)
  type Loader = (NodeTable, Node) -> LoadOutcome

  /** `mapNotNull { runCatching { load(it) }.getOrNull() }`: the entries that
      deserialize, in order. */
  function DeserializeAll(entries: seq<Tag>, load: Deserializer): (r: seq<Node>)
    ensures |r| <= |entries|
    ensures forall i :: 0 <= i < |r| ==> exists j :: 0 <= j < |entries| && load(entries[j]) == Ok(r[i])
  {
    if |entries| == 0 then []
    else
      var rest := DeserializeAll(entries[1..], load);
      assert forall i :: 0 <= i < |rest| ==> exists j :: 0 <= j < |entries| && load(entries[j]) == Ok(rest[i]) by {
        forall i | 0 <= i < |rest|
          ensures exists j :: 0 <= j < |entries| && load(entries[j]) == Ok(rest[i])
        {
          var j :| 0 <= j < |entries[1..]| && load(entries[1..][j]) == Ok(rest[i]);
          assert load(entries[j + 1]) == Ok(rest[i]);
        }
      }
      match load(entries[0])
      case Ok(n) => [n] + rest
      case Fail(_) => rest
  }

  /** `forEach { runCatching { it.loadIntoNetwork() } }`: every node is
      loaded in turn into the table the previous loads left, whether or not
      they threw; the last node's load decides the final table. */
  function LoadAll(nodes: NodeTable, items: seq<Node>, into: Loader): (r: NodeTable)
    ensures |items| == 0 ==> r == nodes
    ensures |items| > 0 ==> r == into(LoadAll(nodes, items[..|items| - 1], into), items[|items| - 1]).table
    decreases |items|
  {
    if |items| == 0 then nodes
    else
      var next := into(nodes, items[0]).table;
      var rest := LoadAll(next, items[1..], into);
      assert |items| > 1 ==> items[1..][..|items[1..]| - 1] == items[..|items| - 1][1..];
      assert |items| > 1 ==> LoadAll(nodes, items[..|items| - 1], into) == LoadAll(next, items[..|items| - 1][1..], into);
      rest
  }

  /** The node entries stored in a chunk container under the transport key:
      none when the key is absent, an error when a stored value has the wrong
      type, and an empty list when the node array is absent. */
  function StoredEntries(pdc: Container): (r: Result<Option<seq<Tag>>>)
    ensures PowerTransport !in pdc ==> r == Ok(None)
  {
    if PowerTransport !in pdc then Ok(None)
    else match pdc[PowerTransport]
      case ContainerTag(c) =>
        if Nodes !in c then Ok(Some([]))
        else (match c[Nodes]
          case ContainerArrayTag(items) => Ok(Some(items))
          case _ => Fail("node array has the wrong type"))
      case _ => Fail("transport entry has the wrong type")
  }

  /** `loadData`: nothing happens without a stored transport container;
      otherwise every entry that deserializes is loaded in order. */
  function LoadData(nodes: NodeTable, pdc: Container, load: Deserializer, into: Loader): (r: Result<NodeTable>)
    ensures PowerTransport !in pdc ==> r == Ok(nodes)
    ensures StoredEntries(pdc).Ok? <==> r.Ok?
  {
    match StoredEntries(pdc)
    case Fail(e) => Fail(e)
    case Ok(None) => Ok(nodes)
    case Ok(Some(entries)) => Ok(LoadAll(nodes, DeserializeAll(entries, load), into))
  }

  /** An entry that fails to deserialize is skipped: the outcome is the one
      without it. */
  lemma {:induction false} DeserializeSkipsFailure(pre: seq<Tag>, bad: Tag, post: seq<Tag>, load: Deserializer)
    requires load(bad).Fail?
    ensures DeserializeAll(pre + [bad] + post, load) == DeserializeAll(pre + post, load)
    decreases |pre|
  {
    if |pre| == 0 {
      assert pre + [bad] + post == [bad] + post;
      assert ([bad] + post)[1..] == post;
      assert pre + post == post;
    } else {
      DeserializeSkipsFailure(pre[1..], bad, post, load);
      assert (pre + [bad] + post)[1..] == pre[1..] + [bad] + post;
      assert (pre + post)[1..] == pre[1..] + post;
    }
  }

  /** Loading `a + b` loads `a`, then `b` into the table `a` left: a
      throwing load never ends the loop early. */
  lemma {:induction false} LoadAllConcat(nodes: NodeTable, a: seq<Node>, b: seq<Node>, into: Loader)
    ensures LoadAll(nodes, a + b, into) == LoadAll(LoadAll(nodes, a, into), b, into)
    decreases |a|
  {
    if |a| == 0 {
      assert a + b == b;
    } else {
      var next := into(nodes, a[0]).table;
      assert LoadAll(nodes, a + b, into) == LoadAll(next, a[1..] + b, into) by {
        assert (a + b)[1..] == a[1..] + b;
      }
      assert LoadAll(nodes, a, into) == LoadAll(next, a[1..], into);
      LoadAllConcat(next, a[1..], b, into);
    }
  }

  /** `runCatching` swallows every failure: two loaders that leave the same
      tables give the same outcome, whichever loads threw. */
  lemma {:induction false} LoadAllIgnoresThrows(nodes: NodeTable, items: seq<Node>, into: Loader, other: Loader)
    requires forall t, n :: into(t, n).table == other(t, n).table
    ensures LoadAll(nodes, items, into) == LoadAll(nodes, items, other)
    decreases |items|
  {
    if |items| > 0 {
      LoadAllIgnoresThrows(into(nodes, items[0]).table, items[1..], into, other);
    }
  }

  /** A node whose load throws before writing anything is skipped: the
      outcome is the one without it. */
  lemma LoadAllSkipsFailure(nodes: NodeTable, pre: seq<Node>, bad: Node, post: seq<Node>, into: Loader)
    requires into(LoadAll(nodes, pre, into), bad) == LoadOutcome(LoadAll(nodes, pre, into), true)
    ensures LoadAll(nodes, pre + [bad] + post, into) == LoadAll(nodes, pre + post, into)
  {
    LoadAllConcat(nodes, pre + [bad], post, into);
    LoadAllConcat(nodes, pre, [bad], into);
    LoadAllConcat(nodes, pre, post, into);
    assert [bad][..0] == [];
  }

  /** Every node that deserializes is offered to the table, even when other
      entries fail: with a loader that stores a node at its position, each
      such node ends up in the table unless a later one takes its key. */
  lemma {:induction false} LoadAllStoresEveryNode(nodes: NodeTable, items: seq<Node>, i: nat)
    requires i < |items|
    requires forall j :: i < j < |items| ==> items[j].position != items[i].position
    ensures var put: Loader := (t: NodeTable, n: Node) => LoadOutcome(t[n.position := n], false);
      var r := LoadAll(nodes, items, put);
      items[i].position in r && r[items[i].position] == items[i]
    decreases |items|
  {
    var put: Loader := (t: NodeTable, n: Node) => LoadOutcome(t[n.position := n], false);
    var next := nodes[items[0].position := items[0]];
    assert LoadAll(nodes, items, put) == LoadAll(next, items[1..], put);
    if i == 0 {
      LoadAllKeeps(next, items[1..], items[0]);
    } else {
      LoadAllStoresEveryNode(next, items[1..], i - 1);
    }
  }

  lemma {:induction false} LoadAllKeeps(nodes: NodeTable, items: seq<Node>, n: Node)
    requires n.position in nodes && nodes[n.position] == n
    requires forall j :: 0 <= j < |items| ==> items[j].position != n.position
    ensures var put: Loader := (t: NodeTable, m: Node) => LoadOutcome(t[m.position := m], false);
      var r := LoadAll(nodes, items, put);
      n.position in r && r[n.position] == n
    decreases |items|
  {
    if |items| > 0 {
      var put: Loader := (t: NodeTable, m: Node) => LoadOutcome(t[m.position := m], false);
      var next := nodes[items[0].position := items[0]];
      assert LoadAll(nodes, items, put) == LoadAll(next, items[1..], put);
      LoadAllKeeps(next, items[1..], n);
    }
  }

  /** The table's iteration order: every key exactly once. */
  predicate IsOrderOf(order: seq<BlockKey>, nodes: NodeTable)
  {
    (forall i :: 0 <= i < |order| ==> order[i] in nodes)
    && (forall k :: k in nodes ==> k in order)
    && (forall i, j :: 0 <= i < j < |order| ==> order[i] != order[j])
  }

  /** The nodes met along `order`, each kept at its first appearance, as a
      `LinkedHashMap` keyed by node keeps them. */
  function DistinctNodes(nodes: NodeTable, order: seq<BlockKey>): (r: seq<Node>)
    requires forall i :: 0 <= i < |order| ==> order[i] in nodes
    ensures forall i, j :: 0 <= i < j < |r| ==> r[i] != r[j]
    ensures forall n :: n in r <==> exists i :: 0 <= i < |order| && nodes[order[i]] == n
    decreases |order|
  {
    if |order| == 0 then []
    else
      var last := order[|order| - 1];
      var prefix := DistinctNodes(nodes, order[..|order| - 1]);
      assert forall n :: n in prefix <==> exists i :: 0 <= i < |order| - 1 && nodes[order[i]] == n by {
        forall n ensures n in prefix <==> exists i :: 0 <= i < |order| - 1 && nodes[order[i]] == n {
          if n in prefix {
            var i :| 0 <= i < |order[..|order| - 1]| && nodes[order[..|order| - 1][i]] == n;
            assert nodes[order[i]] == n;
          }
          if exists i :: 0 <= i < |order| - 1 && nodes[order[i]] == n {
            var i :| 0 <= i < |order| - 1 && nodes[order[i]] == n;
            assert order[..|order| - 1][i] == order[i];
          }
        }
      }
      if nodes[last] in prefix then prefix else prefix + [nodes[last]]
  }

  /** The serialized form of each distinct node, in order. */
  function SerializedEntries(nodes: NodeTable, order: seq<BlockKey>, serialize: Node -> Tag): (r: seq<Tag>)
    requires forall i :: 0 <= i < |order| ==> order[i] in nodes
    ensures |r| == |DistinctNodes(nodes, order)|
    ensures forall i :: 0 <= i < |r| ==> r[i] == serialize(DistinctNodes(nodes, order)[i])
  {
    var distinct := DistinctNodes(nodes, order);
    seq(|distinct|, i requires 0 <= i < |distinct| => serialize(distinct[i]))
  }

  /** `save`: one serialized entry per distinct node, written as the node
      array of a fresh container stored under the network's own key. */
  function Save(pdc: Container, nodes: NodeTable, order: seq<BlockKey>, ownKey: DataKey, serialize: Node -> Tag): (r: Container)
    requires IsOrderOf(order, nodes)
    ensures ownKey in r && r.Keys == pdc.Keys + {ownKey}
    ensures forall k :: k in pdc && k != ownKey ==> r[k] == pdc[k]
  {
    var entries := SerializedEntries(nodes, order, serialize);
    pdc[ownKey := ContainerTag(map[Nodes := ContainerArrayTag(entries)])]
  }

  /** Every distinct node of the table is saved exactly once, however many
      positions it covers. */
  lemma SaveOneEntryPerNode(pdc: Container, nodes: NodeTable, order: seq<BlockKey>, ownKey: DataKey, serialize: Node -> Tag)
    requires IsOrderOf(order, nodes)
    ensures var saved := Save(pdc, nodes, order, ownKey, serialize)[ownKey];
      var distinct := DistinctNodes(nodes, order);
      saved.ContainerTag? && Nodes in saved.entries && saved.entries[Nodes].ContainerArrayTag?
      && |saved.entries[Nodes].items| == |distinct|
      && (forall n :: n in distinct <==> exists k :: k in nodes && nodes[k] == n)
      && (forall i :: 0 <= i < |distinct| ==> saved.entries[Nodes].items[i] == serialize(distinct[i]))
  {
    DistinctNodesAreValues(nodes, order);
  }

  lemma DistinctNodesAreValues(nodes: NodeTable, order: seq<BlockKey>)
    requires IsOrderOf(order, nodes)
    ensures forall n :: n in DistinctNodes(nodes, order) <==> exists k :: k in nodes && nodes[k] == n
  {
    forall n, k | k in nodes && nodes[k] == n ensures n in DistinctNodes(nodes, order) {
      assert k in order;
      var i :| 0 <= i < |order| && order[i] == k;
      assert nodes[order[i]] == n;
    }
  }

  /** Save and load meet only when the network's own key is the transport
      key that loading reads: then loading sees exactly the saved entries;
      under any other key, saving leaves what loading sees unchanged. */
  lemma SaveLoadKeys(pdc: Container, nodes: NodeTable, order: seq<BlockKey>, ownKey: DataKey, serialize: Node -> Tag)
    requires IsOrderOf(order, nodes)
    ensures ownKey == PowerTransport ==>
        StoredEntries(Save(pdc, nodes, order, ownKey, serialize))
          == Ok(Some(SerializedEntries(nodes, order, serialize)))
    ensures ownKey != PowerTransport ==>
      StoredEntries(Save(pdc, nodes, order, ownKey, serialize)) == StoredEntries(pdc)
  {
  }

  /** Loading what was saved under the transport key, with a deserializer
      that inverts the serializer, loads each distinct node once, in order. */
  lemma SaveThenLoad(pdc: Container, nodes: NodeTable, order: seq<BlockKey>, serialize: Node -> Tag,
                     load: Deserializer, start: NodeTable, into: Loader)
    requires IsOrderOf(order, nodes)
    requires forall n :: load(serialize(n)) == Ok(n)
    ensures LoadData(start, Save(pdc, nodes, order, PowerTransport, serialize), load, into)
         == Ok(LoadAll(start, DistinctNodes(nodes, order), into))
  {
    var entries := SerializedEntries(nodes, order, serialize);
    SaveLoadKeys(pdc, nodes, order, PowerTransport, serialize);
    DeserializeInverse(entries, DistinctNodes(nodes, order), serialize, load);
  }

  lemma {:induction false} DeserializeInverse(entries: seq<Tag>, ns: seq<Node>, serialize: Node -> Tag, load: Deserializer)
    requires |entries| == |ns|
    requires forall i :: 0 <= i < |ns| ==> entries[i] == serialize(ns[i])
    requires forall n :: load(serialize(n)) == Ok(n)
    ensures DeserializeAll(entries, load) == ns
    decreases |ns|
  {
    if |ns| > 0 {
      assert load(entries[0]) == Ok(ns[0]);
      DeserializeInverse(entries[1..], ns[1..], serialize, load);
    }
  }

  /** One step of `build`: `buildRelations` calls on each node in turn, then
      node consolidation, then the graph build. */
  datatype BuildStep = BuildRelations(key: BlockKey, node: Node) | FinalizeNodes | BuildGraph

  /** `buildRelations`: each node is asked to build its relations once, with
      the key it is stored under. */
  function BuildRelationsSteps(nodes: NodeTable, order: seq<BlockKey>): (r: seq<BuildStep>)
    requires forall i :: 0 <= i < |order| ==> order[i] in nodes
    ensures |r| == |order|
    ensures forall i :: 0 <= i < |r| ==> r[i] == BuildRelations(order[i], nodes[order[i]])
  {
    if |order| == 0 then [] else [BuildRelations(order[0], nodes[order[0]])] + BuildRelationsSteps(nodes, order[1..])
  }

  /** `build`: relations first, then consolidation, then the graph; the last
      two steps are empty in the source and leave the table as it is. */
  function Build(nodes: NodeTable, order: seq<BlockKey>): (r: (seq<BuildStep>, NodeTable))
    requires IsOrderOf(order, nodes)
    ensures r.1 == nodes
    ensures |r.0| == |nodes| + 2
    ensures r.0[|r.0| - 2] == FinalizeNodes && r.0[|r.0| - 1] == BuildGraph
    ensures forall i :: 0 <= i < |r.0| - 2 ==>
      r.0[i].BuildRelations? && r.0[i].key in nodes && r.0[i].node == nodes[r.0[i].key]
    ensures forall k :: k in nodes ==> exists i :: 0 <= i < |r.0| - 2 && r.0[i] == BuildRelations(k, nodes[k])
    ensures forall i, j :: 0 <= i < j < |r.0| - 2 ==> r.0[i] != r.0[j]
  {
    var steps := BuildRelationsSteps(nodes, order);
    OrderLength(order, nodes);
    assert forall k :: k in nodes ==> exists i :: 0 <= i < |steps| && steps[i] == BuildRelations(k, nodes[k]) by {
      forall k | k in nodes ensures exists i :: 0 <= i < |steps| && steps[i] == BuildRelations(k, nodes[k]) {
        assert k in order;
        var i :| 0 <= i < |order| && order[i] == k;
        assert steps[i] == BuildRelations(k, nodes[k]);
      }
    }
    var all := steps + [FinalizeNodes, BuildGraph];
    assert forall i :: 0 <= i < |steps| ==> all[i] == steps[i];
    (all, nodes)
  }

  lemma OrderLength(order: seq<BlockKey>, nodes: NodeTable)
    requires IsOrderOf(order, nodes)
    ensures |order| == |nodes|
  {
    var s := set i | 0 <= i < |order| :: order[i];
    forall k | k in nodes ensures k in s {
      assert k in order;
      var i :| 0 <= i < |order| && order[i] == k;
    }
    assert s == nodes.Keys;
    DistinctSeqCard(order);
  }

  lemma {:induction false} DistinctSeqCard(order: seq<BlockKey>)
    requires forall i, j :: 0 <= i < j < |order| ==> order[i] != order[j]
    ensures |set i | 0 <= i < |order| :: order[i]| == |order|
    decreases |order|
  {
    if |order| > 0 {
      var init := order[..|order| - 1];
      DistinctSeqCard(init);
      var s := set i | 0 <= i < |order| :: order[i];
      var t := set i | 0 <= i < |init| :: init[i];
      assert s == t + {order[|order| - 1]};
      assert order[|order| - 1] !in t;
    }
  }

  /** Position `k` (0 <= k < 4096) of the section scan: x outermost, z
      innermost. */
  function Cell(origin: Vec3, k: nat): Vec3
  {
    Vec3(origin.x + k / 256, origin.y + (k / 16) % 16, origin.z + k % 16)
  }

  /** Section origin: chunk origin in x and z, `sectionY shl 4` less the
      world's minimum height in y. */
  function SectionOrigin(chunkOriginX: int, chunkOriginZ: int, sectionY: int, minHeight: int): Vec3
  {
    Vec3(chunkOriginX, sectionY * 16 - minHeight, chunkOriginZ)
  }

  /** The factory calls of the first `n` scan positions. */
  function ScanCalls(origin: Vec3, n: nat, snapshotAt: (int, int, int) -> Option<Snapshot>, pack: Packer): seq<FactoryCall>
  {
    if n == 0 then []
    else
      var p := Cell(origin, n - 1);
      ScanCalls(origin, n - 1, snapshotAt, pack)
        + match snapshotAt(p.x, p.y, p.z)
          case Some(s) => [CreateNodeFromBlock(pack, s)]
          case None => []
  }

  /** `collectSectionNodes`: visits the 16x16x16 positions of the section and
      calls the factory for each one that has a snapshot. */
  method CollectSectionNodes(chunkOriginX: int, chunkOriginZ: int, sectionY: int, minHeight: int,
                             snapshotAt: (int, int, int) -> Option<Snapshot>, pack: Packer)
    returns (visited: seq<Vec3>, calls: seq<FactoryCall>)
    ensures var o := SectionOrigin(chunkOriginX, chunkOriginZ, sectionY, minHeight);
      |visited| == 4096 && (forall k :: 0 <= k < 4096 ==> visited[k] == Cell(o, k))
      && calls == ScanCalls(o, 4096, snapshotAt, pack)
  {
    var o := SectionOrigin(chunkOriginX, chunkOriginZ, sectionY, minHeight);
    visited := [];
    calls := [];
    var x := 0;
    while x < 16
      invariant 0 <= x <= 16
      invariant |visited| == 256 * x
      invariant ScannedPrefix(o, visited, calls, snapshotAt, pack)
    {
      visited, calls := ScanPlane(o, x, snapshotAt, pack, visited, calls);
      x := x + 1;
    }
  }

  /** `visited` is the first `|visited|` scan positions and `calls` the
      factory calls they made. */
  predicate ScannedPrefix(o: Vec3, visited: seq<Vec3>, calls: seq<FactoryCall>,
                          snapshotAt: (int, int, int) -> Option<Snapshot>, pack: Packer)
  {
    (forall k :: 0 <= k < |visited| ==> visited[k] == Cell(o, k))
    && calls == ScanCalls(o, |visited|, snapshotAt, pack)
  }

  /** The 16x16 positions of one x plane. */
  method ScanPlane(o: Vec3, x: int, snapshotAt: (int, int, int) -> Option<Snapshot>, pack: Packer,
                   visited0: seq<Vec3>, calls0: seq<FactoryCall>)
    returns (visited: seq<Vec3>, calls: seq<FactoryCall>)
    requires 0 <= x < 16 && |visited0| == 256 * x
    requires ScannedPrefix(o, visited0, calls0, snapshotAt, pack)
    ensures |visited| == |visited0| + 256
    ensures ScannedPrefix(o, visited, calls, snapshotAt, pack)
  {
    visited, calls := visited0, calls0;
    var y := 0;
    while y < 16
      invariant 0 <= y <= 16
      invariant |visited| == 256 * x + 16 * y
      invariant ScannedPrefix(o, visited, calls, snapshotAt, pack)
    {
      visited, calls := ScanRow(o, x, y, snapshotAt, pack, visited, calls);
      y := y + 1;
    }
  }

  /** The 16 positions of one (x, y) row, z innermost. */
  method ScanRow(o: Vec3, x: int, y: int, snapshotAt: (int, int, int) -> Option<Snapshot>, pack: Packer,
                 visited0: seq<Vec3>, calls0: seq<FactoryCall>)
    returns (visited: seq<Vec3>, calls: seq<FactoryCall>)
    requires 0 <= x < 16 && 0 <= y < 16 && |visited0| == 256 * x + 16 * y
    requires ScannedPrefix(o, visited0, calls0, snapshotAt, pack)
    ensures |visited| == |visited0| + 16
    ensures ScannedPrefix(o, visited, calls, snapshotAt, pack)
  {
    visited, calls := visited0, calls0;
    var z := 0;
    while z < 16
      invariant 0 <= z <= 16
      invariant |visited| == |visited0| + z
      invariant ScannedPrefix(o, visited, calls, snapshotAt, pack)
    {
      CellOfIndex(o, x, y, z);
      var p := Vec3(o.x + x, o.y + y, o.z + z);
      assert Cell(o, |visited|) == p;
      visited := visited + [p];
      match snapshotAt(p.x, p.y, p.z) {
        case Some(s) => calls := calls + [CreateNodeFromBlock(pack, s)];
        case None =>
      }
      z := z + 1;
    }
  }

  lemma CellOfIndex(o: Vec3, x: int, y: int, z: int)
    requires 0 <= x < 16 && 0 <= y < 16 && 0 <= z < 16
    ensures Cell(o, 256 * x + 16 * y + z) == Vec3(o.x + x, o.y + y, o.z + z)
  {
    var k := 256 * x + 16 * y + z;
    assert k / 256 == x;
    assert k / 16 == 16 * x + y;
    assert (16 * x + y) % 16 == y;
    assert k % 16 == z;
  }

  predicate InSection(o: Vec3, p: Vec3)
  {
    o.x <= p.x < o.x + 16 && o.y <= p.y < o.y + 16 && o.z <= p.z < o.z + 16
  }

  /** The scan visits every position of the section exactly once and
      nothing outside it. */
  lemma ScanCoversSection(o: Vec3)
    ensures forall k :: 0 <= k < 4096 ==> InSection(o, Cell(o, k))
    ensures forall p :: InSection(o, p) ==> exists k :: 0 <= k < 4096 && Cell(o, k) == p
    ensures forall j, k :: 0 <= j < k < 4096 ==> Cell(o, j) != Cell(o, k)
  {
    forall p | InSection(o, p) ensures exists k :: 0 <= k < 4096 && Cell(o, k) == p {
      CellOfIndex(o, p.x - o.x, p.y - o.y, p.z - o.z);
    }
    forall j, k | 0 <= j < k < 4096 ensures Cell(o, j) != Cell(o, k) {
      IndexDigits(j);
      IndexDigits(k);
    }
  }

  lemma IndexDigits(k: nat)
    requires k < 4096
    ensures k == 256 * (k / 256) + 16 * ((k / 16) % 16) + k % 16
    ensures k / 256 < 16
  {
  }
}
