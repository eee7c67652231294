/** Writing a trie out breadth-first, and building it again level by level. */
module AhoCorasickSerialization {
  import opened Bytes
  import opened Errors
  import opened Serialization
  import opened AhoCorasick
  import opened IndexFormat
  import opened Versions
  import opened BreadthFirstListing
  import opened IndexReading
  import opened IndexProperties

  // ------------------------------------------------------------------- serialization

  /** The waiting nodes are the ones listed from position `base` on. */
  ghost predicate Waiting(nodes: map<Key, Node>, level: seq<NodeDescriptor>, paths: seq<Key>, parents: seq<nat>, base: nat)
  {
    && |paths| == |parents| && base + |level| <= |paths|
    && forall k | 0 <= k < |level| :: WaitsAt(nodes, level[k], paths, parents, base + k)
  }

  ghost predicate WaitsAt(nodes: map<Key, Node>, d: NodeDescriptor, paths: seq<Key>, parents: seq<nat>, i: nat)
    requires i < |paths| == |parents|
  {
    && d.nodeId == i && paths[i] in nodes && d.node == nodes[paths[i]] && d.parentId == parents[i]
    && d.ch == if paths[i] == [] then ROOT_CHAR else Last(paths[i])
  }

  /** Descriptors of waiting nodes do not depend on what is listed later. */
  lemma WaitingLonger(nodes: map<Key, Node>, level: seq<NodeDescriptor>, paths: seq<Key>, parents: seq<nat>, base: nat,
                      paths': seq<Key>, parents': seq<nat>)
    requires Waiting(nodes, level, paths, parents, base)
    requires paths <= paths' && parents <= parents' && |paths'| == |parents'|
    ensures Waiting(nodes, level, paths', parents', base)
  {
    forall k | 0 <= k < |level|
      ensures WaitsAt(nodes, level[k], paths', parents', base + k)
    {
      assert WaitsAt(nodes, level[k], paths, parents, base + k);
    }
  }

  lemma NextWaits(nodes: map<Key, Node>, level: seq<NodeDescriptor>, paths: seq<Key>, parents: seq<nat>, base: nat,
                  k: nat)
    requires Waiting(nodes, level, paths, parents, base) && k < |level|
    ensures |paths| == |parents| && base + |level| <= |paths|
    ensures WaitsAt(nodes, level[k], paths, parents, base + k)
  {
  }

  lemma ListedIsImage(t: Trie, paths: seq<Key>, parents: seq<nat>, version: Version)
    requires Listed(t.Keys, paths, parents, |paths|, |paths|) && PrefixClosed(t.Keys) && |t.Keys| < NO_ID
    requires forall p | p in t :: t[p] < U64
    ensures IsImage(Image(t, paths, parents, version))
  {
    ListedFits(t.Keys, paths, parents, |paths|, |paths|);
    forall p | p in t
      ensures p in paths
    {
      AllListed(t.Keys, paths, parents, p);
    }
  }

  lemma AppendSaved(buffer: seq<byte>, cursor: nat, data: seq<byte>)
    requires cursor + |data| <= |buffer|
    ensures var (buffer', cursor') := SaveAsBytes(buffer, cursor, data);
            cursor' == cursor + |data| && buffer'[..cursor'] == buffer[..cursor] + data
  {
  }

  lemma TableNext(leafs: seq<LeafRecord>, nodes: seq<NodeRecord>, i: nat)
    ensures i < |leafs| ==> LeafBytes(leafs[..i + 1]) == LeafBytes(leafs[..i]) + leafs[i].Pack()
    ensures i < |nodes| ==> NodeBytes(nodes[..i + 1]) == NodeBytes(nodes[..i]) + nodes[i].Pack()
  {
    if i < |leafs| {
      assert leafs[..i + 1][..i] == leafs[..i];
    }
    if i < |nodes| {
      assert nodes[..i + 1][..i] == nodes[..i];
    }
  }

  lemma Starts(nodes: map<Key, Node>, t: Trie, root: Node)
    requires [] in nodes && nodes[[]] == root && [] in t
    ensures Waiting(nodes, [NodeDescriptor(0, root, 0, ROOT_CHAR)], [[]], [0], 0)
    ensures TablesOf(t, [[]], [0], [], [])
  {
  }

  lemma EmptyWaits(nodes: map<Key, Node>, paths: seq<Key>, parents: seq<nat>)
    requires |paths| == |parents|
    ensures Waiting(nodes, [], paths, parents, |paths|)
  {
  }

  /** The nodes of both levels are among `own`. */
  ghost predicate Owned(levels: Levels, own: set<Node>) {
    && (forall id | id in levels.previous :: levels.previous[id].node in own)
    && (forall id | id in levels.current :: levels.current[id].node in own)
  }

  lemma OwnedRoot(root: NodeDescriptor)
    ensures Owned(Levels(map[root.nodeId := root], map[], 1), {root.node})
  {
  }

  lemma OwnedAt(before: Levels, levels: Levels, own: set<Node>, id: nat)
    requires Owned(before, own) && (levels == before || levels.previous == before.current) && id in levels.previous
    ensures levels.previous[id].node in own
  {
  }

  lemma OwnedNext(before: Levels, levels: Levels, own: set<Node>, d: NodeDescriptor)
    requires Owned(before, own)
    requires levels == before || (levels.previous == before.current && levels.current == map[])
    ensures Owned(levels.(current := Emplaced(levels.current, d.nodeId, d)), own + {d.node})
  {
  }

  class AhoCorasickSerializationHelper {
    const version: Version

    constructor (version: Version)
      ensures this.version == version
    {
      this.version := version;
    }

    /** Puts the children of one node in line, in whatever order the map of routes yields them. */
    method AppendChildren(engine: AhoCorasickEngine, d: NodeDescriptor, next: seq<NodeDescriptor>, nodeId: nat,
                          ghost paths: seq<Key>, ghost parents: seq<nat>)
      returns (next': seq<NodeDescriptor>, nodeId': nat, ghost paths': seq<Key>, ghost parents': seq<nat>)
      requires engine.Valid() && Listed(engine.nodes.Keys, paths, parents, d.nodeId, d.nodeId)
      requires d.nodeId < |paths| && WaitsAt(engine.nodes, d, paths, parents, d.nodeId)
      requires nodeId == |paths| && |next| <= |paths| && Waiting(engine.nodes, next, paths, parents, |paths| - |next|)
      ensures Listed(engine.nodes.Keys, paths', parents', d.nodeId + 1, d.nodeId + 1)
      ensures paths <= paths' && parents <= parents' && nodeId' == |paths'|
      ensures |next'| - |next| == |paths'| - |paths| && Waiting(engine.nodes, next', paths', parents', |paths| - |next|)
      ensures forall i | |paths| <= i < |paths'| :: |paths'[i]| == |paths[d.nodeId]| + 1
    {
      hide engine.Valid, Listed;
      next', nodeId', paths', parents' := next, nodeId, paths, parents;
      ghost var p := paths[d.nodeId];
      engine.RoutesOf(p);
      NoChildYet(engine.nodes.Keys, paths, parents, d.nodeId);
      ListMore(engine.nodes.Keys, paths, parents, d.nodeId);
      var routes := d.node.routes;
      var remaining := routes.Keys;
      while remaining != {}
        invariant remaining <= routes.Keys
        invariant Listed(engine.nodes.Keys, paths', parents', d.nodeId, d.nodeId + 1)
        invariant paths <= paths' && parents <= parents' && nodeId' == |paths'|
        invariant |next'| - |next| == |paths'| - |paths|
        invariant Waiting(engine.nodes, next', paths', parents', |paths| - |next|)
        invariant forall i | |paths| <= i < |paths'| :: |paths'[i]| == |p| + 1
        invariant forall c: byte {:trigger Child(p, c)} :: Child(p, c) in paths' <==> c in routes && c !in remaining
        decreases |remaining|
      {
        var c :| c in remaining;
        remaining := remaining - {c};
        OnlyChildOf(p, c);
        ListChild(engine.nodes.Keys, paths', parents', d.nodeId, c);
        WaitingLonger(engine.nodes, next', paths', parents', |paths| - |next|, paths' + [Child(p, c)], parents' + [d.nodeId]);
        next' := next' + [NodeDescriptor(nodeId', routes[c], d.nodeId, c)];
        paths', parents' := paths' + [Child(p, c)], parents' + [d.nodeId];
        nodeId' := nodeId' + 1;
      }
      ListNext(engine.nodes.Keys, paths', parents', d.nodeId);
    }

    /** Writes every node once, level by level, and puts the tables into one buffer. */
    method Serialize(engine: AhoCorasickEngine) returns (buffer: seq<byte>, ghost img: Image)
      requires engine.Valid() && engine.none == NO_ID && |engine.nodes.Keys| < NO_ID
      requires forall p | p in engine.T() :: engine.T()[p] < U64
      ensures Serializes(buffer, engine.T(), version)
      ensures IsImage(img) && img.trie == engine.T() && img.version == version && buffer == ImageBytes(img)
    {
      hide engine.Valid, Listed, Waiting, TablesOf, PrefixClosed, AllIn, BreadthFirst, IsImage, BufferOf, LeafTable,
           NodeTable, NodeOf;
      ghost var keys, t, paths, parents := engine.nodes.Keys, engine.T(), [[]], [0];
      engine.RoutesOf([]);
      engine.PathsOf();
      ListedStarts(keys);
      Starts(engine.nodes, t, engine.trie);
      var nodes: seq<NodeRecord>, leafs: seq<LeafRecord> := [], [];
      var currentLevel := [NodeDescriptor(0, engine.trie, 0, ROOT_CHAR)];
      var nextLevel: seq<NodeDescriptor> := [];
      var currentNodeId, currentLeafId, depthLevel := 1, 0, 0;
      while currentLevel != []
        invariant Listed(keys, paths, parents, |nodes|, |nodes|) && TablesOf(t, paths, parents, nodes, leafs)
        invariant Waiting(engine.nodes, currentLevel, paths, parents, |nodes|)
        invariant |paths| == |nodes| + |currentLevel| == currentNodeId && currentLeafId == |leafs|
        invariant nextLevel == []
        invariant forall i | |nodes| <= i < |paths| :: |paths[i]| == depthLevel
        decreases |keys| - |nodes|
      {
        ghost var base := |nodes|;
        ListedFits(keys, paths, parents, |nodes|, |nodes|);
        EmptyWaits(engine.nodes, paths, parents);
        for k := 0 to |currentLevel|
          invariant |nodes| == base + k
          invariant Listed(keys, paths, parents, |nodes|, |nodes|) && TablesOf(t, paths, parents, nodes, leafs)
          invariant Waiting(engine.nodes, currentLevel, paths, parents, base)
          invariant Waiting(engine.nodes, nextLevel, paths, parents, base + |currentLevel|)
          invariant |paths| == base + |currentLevel| + |nextLevel| == currentNodeId && currentLeafId == |leafs|
          invariant forall i | base <= i < base + |currentLevel| :: |paths[i]| == depthLevel
          invariant forall i | base + |currentLevel| <= i < |paths| :: |paths[i]| == depthLevel + 1
        {
          var d := currentLevel[k];
          NextWaits(engine.nodes, currentLevel, paths, parents, base, k);
          TablesNext(t, paths, parents, nodes, leafs);
          var leafId := NO_ID;
          if d.node.leaf != NO_ID {
            leafId := currentLeafId;
            leafs := leafs + [LeafRecord(d.nodeId, d.node.leaf)];
            currentLeafId := currentLeafId + 1;
          }
          nodes := nodes + [NodeRecord(d.nodeId, d.parentId, depthLevel, leafId, d.ch)];
          ghost var paths0, parents0 := paths, parents;
          nextLevel, currentNodeId, paths, parents := AppendChildren(engine, d, nextLevel, currentNodeId, paths, parents);
          ListedFits(keys, paths, parents, |nodes|, |nodes|);
          WaitingLonger(engine.nodes, currentLevel, paths0, parents0, base, paths, parents);
          TablesLonger(t, paths0, parents0, paths, parents, nodes, leafs);
        }
        depthLevel := depthLevel + 1;
        currentLevel, nextLevel := nextLevel, [];
      }
      TablesDone(t, paths, parents, nodes, leafs);
      ListedIsImage(t, paths, parents, version);
      img := Image(t, paths, parents, version);
      buffer := ConstructResultSerializedBuffer(leafs, nodes);
    }

    method ConstructResultSerializedBuffer(leafs: seq<LeafRecord>, nodes: seq<NodeRecord>) returns (result: seq<byte>)
      ensures result == BufferOf(leafs, nodes, version)
    {
      hide SaveAsBytes, LeafBytes, NodeBytes, LeafRecord.Pack, NodeRecord.Pack, IndexHeader.Pack;
      var header := IndexHeader(|leafs|, |nodes|, version, ID_SIZE);
      var size := HEADER_SIZE + NODE_SIZE * |nodes| + LEAF_SIZE * |leafs|;
      var buffer: seq<byte> := seq(size, _ => 0);
      AppendSaved(buffer, 0, header.Pack());
      var saved := SaveAsBytes(buffer, 0, header.Pack());
      for i := 0 to |leafs|
        invariant |saved.0| == size && saved.1 == HEADER_SIZE + LEAF_SIZE * i
        invariant saved.0[..saved.1] == header.Pack() + LeafBytes(leafs[..i])
      {
        AppendSaved(saved.0, saved.1, leafs[i].Pack());
        TableNext(leafs, nodes, i);
        saved := SaveAsBytes(saved.0, saved.1, leafs[i].Pack());
      }
      assert leafs[..|leafs|] == leafs;
      for i := 0 to |nodes|
        invariant |saved.0| == size && saved.1 == HEADER_SIZE + LEAF_SIZE * |leafs| + NODE_SIZE * i
        invariant saved.0[..saved.1] == header.Pack() + LeafBytes(leafs) + NodeBytes(nodes[..i])
      {
        AppendSaved(saved.0, saved.1, nodes[i].Pack());
        TableNext(leafs, nodes, i);
        saved := SaveAsBytes(saved.0, saved.1, nodes[i].Pack());
      }
      assert nodes[..|nodes|] == nodes;
      result := saved.0;
    }

    // --------------------------------------------------------------- deserialization

    method DeserializeDataHeader(buffer: seq<byte>) returns (r: Result<(IndexHeader, nat)>)
      ensures |buffer| < HEADER_SIZE ==> r == Err(InvertedIndexDeserializationError)
      ensures HEADER_SIZE <= |buffer| ==>
                var header := UnpackHeader(buffer[0..HEADER_SIZE]);
                r == if version.Number() < header.version.Number()
                     then Err(InvertedIndexDeserializationVersionUnsupportedError)
                     else if header.idSize != ID_SIZE then Err(InvertedIndexDeserializationError)
                     else Ok((header, HEADER_SIZE))
    {
      var cursor := LoadFromBytes(buffer, 0, HEADER_SIZE);
      if cursor == 0 {
        return Err(InvertedIndexDeserializationError);
      }
      var header := UnpackHeader(buffer[0..HEADER_SIZE]);
      if version.Less(header.version) {
        return Err(InvertedIndexDeserializationVersionUnsupportedError);
      }
      if header.idSize != ID_SIZE {
        return Err(InvertedIndexDeserializationError);
      }
      return Ok((header, cursor));
    }

    /**
     * Loads the leaf table. A record that is cut off leaves the cursor where it was and yields an arbitrary record; this
     * is an error only when it is the first one.
     */
    method DeserializeLeafDescriptors(buffer: seq<byte>, begin: nat, leafsCount: nat, ghost img: Image)
      returns (r: Result<(nat, map<nat, nat>)>)
      requires begin <= |buffer|
      ensures r.Err? <==> 0 < leafsCount && |buffer| - begin < LEAF_SIZE
      ensures r.Err? ==> r.error == InvertedIndexDeserializationError
      ensures r.Ok? ==> begin <= r.value.0 <= |buffer|
      ensures Begins(img, buffer) && begin == HEADER_SIZE && leafsCount == LeafCount(img) ==>
                if NodePlace(img, 0) <= |buffer|
                then r.Ok? && r.value.0 == NodePlace(img, 0) && LeafsRead(img, leafsCount, r.value.1)
                else r.Ok? ==> |buffer| - r.value.0 < LEAF_SIZE
    {
      hide IsImage, LeafIds, LeafsRead, UnpackLeaf, ImageBytes, LeafCount;
      var cursor, leafs: map<nat, nat> := begin, map[];
      ghost var wf := Begins(img, buffer) && begin == HEADER_SIZE && leafsCount == LeafCount(img);
      if wf {
        NoLeafsRead(img, buffer);
      }
      for leafId := 0 to leafsCount
        invariant begin <= cursor <= |buffer|
        invariant leafId == 0 ==> cursor == begin
        invariant leafId > 0 ==> begin < cursor && LEAF_SIZE <= |buffer| - begin
        invariant wf ==> if begin + LEAF_SIZE * leafId <= |buffer|
                         then cursor == begin + LEAF_SIZE * leafId && LeafsRead(img, leafId, leafs)
                         else |buffer| - cursor < LEAF_SIZE
      {
        var next := LoadFromBytes(buffer, cursor, LEAF_SIZE);
        var rec: LeafRecord := *;
        if next != cursor {
          rec := UnpackLeaf(buffer[cursor..next]);
        }
        if next == begin {
          return Err(InvertedIndexDeserializationError);
        }
        if wf && begin + LEAF_SIZE * (leafId + 1) <= |buffer| {
          LeafAdded(img, buffer, leafId, leafs);
        }
        leafs := Emplaced(leafs, rec.nodeId, rec.leaf);
        cursor := next;
      }
      return Ok((cursor, leafs));
    }

    method DeserializeNodeDescriptor(buffer: seq<byte>, begin: nat) returns (r: Result<(NodeRecord, nat)>)
      requires begin <= |buffer|
      ensures r == if |buffer| - begin < NODE_SIZE then Err(InvertedIndexDeserializationError)
                   else Ok((UnpackNode(buffer[begin..begin + NODE_SIZE]), begin + NODE_SIZE))
    {
      var cursor := LoadFromBytes(buffer, begin, NODE_SIZE);
      if cursor == begin {
        return Err(InvertedIndexDeserializationError);
      }
      return Ok((UnpackNode(buffer[begin..cursor]), cursor));
    }

    /** Hangs the node of one record, with its leaf, below the node of its parent. */
    method RebuildNode(built: AhoCorasickEngine, ghost p: Key, parent: Node, rec: NodeRecord, leafs: map<nat, nat>)
      returns (r: Result<NodeDescriptor>)
      requires built.none == NO_ID
      modifies built`nodes, parent`routes
      ensures r.Err? <==> rec.leafId != NO_ID && rec.nodeId !in leafs
      ensures r.Err? ==> r.error == InvertedIndexDeserializationError
      ensures r.Ok? ==> fresh(r.value.node) && r.value.nodeId == rec.nodeId
                        && built.nodes == old(built.nodes)[Child(p, rec.ch) := r.value.node]
      ensures r.Ok? && old(built.StandsAt(p, parent) && Child(p, rec.ch) !in built.nodes) ==>
                && built.Valid()
                && built.T() == old(built.T())[Child(p, rec.ch) := if rec.leafId != NO_ID then leafs[rec.nodeId] else NO_ID]
    {
      hide Child, AhoCorasickEngine.Valid;
      var route := built.AddRoute(p, rec.ch, parent);
      if rec.leafId != NO_ID {
        if rec.nodeId !in leafs {
          return Err(InvertedIndexDeserializationError);
        }
        built.SetLeaf(Child(p, rec.ch), route, leafs[rec.nodeId]);
      }
      return Ok(NodeDescriptor(rec.nodeId, route, rec.parentId, rec.ch));
    }

    /** Rebuilds all nodes from their records, level by level. */
    method RebuildTrie(buffer: seq<byte>, begin: nat, nodesCount: nat, leafs: map<nat, nat>, ghost img: Image)
      returns (r: Result<AhoCorasickEngine>)
      requires begin <= |buffer| && 0 < nodesCount
      ensures r.Ok? ==> fresh(r.value) && fresh(r.value.nodes.Values) && r.value.none == NO_ID
      ensures r.Ok? ==> begin + NODE_SIZE * nodesCount <= |buffer|
      ensures NodesFollow(img, buffer, begin, nodesCount, leafs) ==>
                && IsImage(img) && (r.Ok? <==> buffer == ImageBytes(img))
                && (r.Ok? ==> r.value.Valid() && r.value.T() == img.trie[[] := NO_ID])
    {
      hide IsImage, ImageBytes, UnpackNode, Progress, LeafsRead, LeafCount, Child, AhoCorasickEngine.Valid, Begins,
           NodesFollow, Owned;
      ghost var wf := NodesFollow(img, buffer, begin, nodesCount, leafs);
      if wf {
        FollowingNodes(img, buffer, begin, nodesCount, leafs);
        if NODE_SIZE <= |buffer| - begin {
          RecordRead(img, buffer, 0);
        }
      }
      var rootRead := DeserializeNodeDescriptor(buffer, begin);
      if rootRead.Err? {
        return Err(rootRead.error);
      }
      var rec := rootRead.value.0;
      var cursor: nat := rootRead.value.1;
      if rec.nodeId != rec.parentId {
        return Err(InvertedIndexDeserializationError);
      }
      var built := new AhoCorasickEngine(NO_ID);
      var root := NodeDescriptor(rec.nodeId, built.trie, rec.parentId, rec.ch);
      var levels := Levels(map[rec.nodeId := root], map[], 1);
      ghost var own: set<Node> := {built.trie};
      OwnedRoot(root);
      if wf {
        ProgressStarts(img, built.nodes, root);
      }
      for nodeId := 1 to nodesCount
        invariant cursor == begin + NODE_SIZE * nodeId <= |buffer|
        invariant fresh(built) && fresh(own) && built.nodes.Values <= own && Owned(levels, own)
        invariant wf ==> cursor == NodePlace(img, nodeId) && built.Valid()
                         && Progress(img, nodeId, built.nodes, built.T(), levels)
      {
        var recRead := DeserializeNodeDescriptor(buffer, cursor);
        if recRead.Err? {
          return Err(recRead.error);
        }
        rec, cursor := recRead.value.0, recRead.value.1;
        ghost var nodes, t, before := built.nodes, built.T(), levels;
        if wf {
          NextRecord(img, buffer, nodeId, nodes, t, levels, leafs, rec);
        }
        ghost var parent := if wf then img.paths[rec.parentId] else [];
        if levels.depth < rec.depth {
          levels := Levels(levels.current, map[], levels.depth + 1);
        }
        if rec.parentId !in levels.previous {
          return Err(InvertedIndexDeserializationError);
        }
        OwnedAt(before, levels, own, rec.parentId);
        var rebuilt := RebuildNode(built, parent, levels.previous[rec.parentId].node, rec, leafs);
        if rebuilt.Err? {
          return Err(rebuilt.error);
        }
        if wf {
          ProgressNext(img, nodeId, nodes, t, before, rebuilt.value);
        }
        OwnedNext(before, levels, own, rebuilt.value);
        own := own + {rebuilt.value.node};
        levels := levels.(current := Emplaced(levels.current, rec.nodeId, rebuilt.value));
      }
      if wf {
        ProgressEnds(img, built.nodes, built.T(), levels);
      }
      return Ok(built);
    }

    /**
     * Rebuilds a trie from its serialized form and puts it in place of the one in `engine`. Whatever the buffer holds,
     * an error leaves the engine alone.
     */
    method Deserialize(buffer: seq<byte>, engine: AhoCorasickEngine, ghost img: Image) returns (r: Result<()>)
      requires engine.none == NO_ID
      modifies engine
      ensures r.Err? ==> engine.trie == old(engine.trie) && engine.nodes == old(engine.nodes)
      ensures r.Ok? ==> HEADER_SIZE <= |buffer|
                        && var header := UnpackHeader(buffer[0..HEADER_SIZE]);
                        && header.version.Number() <= version.Number() && header.idSize == ID_SIZE
                        && HEADER_SIZE + NODE_SIZE * header.nodesCount <= |buffer|
                        && (header.nodesCount == 0 ==> engine.trie == old(engine.trie) && engine.nodes == old(engine.nodes))
      ensures Begins(img, buffer) && version.Number() < img.version.Number() ==> r.Err?
      ensures Begins(img, buffer) && img.version.Number() <= version.Number() ==> (r.Ok? <==> buffer == ImageBytes(img))
      ensures Begins(img, buffer) && r.Ok? ==>
                && engine.Valid() && fresh(engine.nodes.Values) && engine.T() == img.trie[[] := NO_ID]
                && (engine.T() == img.trie <==> [] in img.trie && img.trie[[]] == NO_ID)
    {
      hide IsImage, ImageBytes, UnpackHeader, LeafsRead, LeafCount, AhoCorasickEngine.Valid;
      if Begins(img, buffer) {
        BeginsImage(img, buffer);
        RootLeafIsLost(img);
        if HEADER_SIZE <= |buffer| {
          HeaderRead(img, buffer);
        }
      }
      var headerRead := DeserializeDataHeader(buffer);
      if headerRead.Err? {
        return Err(headerRead.error);
      }
      var header, cursor := headerRead.value.0, headerRead.value.1;
      if header.nodesCount == 0 {
        return Ok(());
      }
      var leafsRead := DeserializeLeafDescriptors(buffer, cursor, header.leafsCount, img);
      if leafsRead.Err? {
        return Err(leafsRead.error);
      }
      var rebuilt := RebuildTrie(buffer, leafsRead.value.0, header.nodesCount, leafsRead.value.1, img);
      if rebuilt.Err? {
        return Err(rebuilt.error);
      }
      engine.Swap(rebuilt.value);
      return Ok(());
    }
  }
}
