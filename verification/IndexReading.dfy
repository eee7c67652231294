/** Reading a breadth-first image back: what each record holds, and what is rebuilt after each record. */
module IndexReading {
  import opened Bytes
  import opened AhoCorasick
  import opened IndexFormat

  // ----------------------------------------------------------------------- the records

  /** `buffer` is the serialized form of the image, or its beginning. */
  ghost predicate Begins(img: Image, buffer: seq<byte>) {
    IsImage(img) && buffer <= ImageBytes(img)
  }

  ghost function LeafCount(img: Image): nat
    requires IsImage(img)
  { |LeafIds(img.trie, img.paths)| }

  /** Where the record of the `i`-th node starts. */
  ghost function NodePlace(img: Image, i: nat): nat
    requires IsImage(img)
  { HEADER_SIZE + LEAF_SIZE * LeafCount(img) + NODE_SIZE * i }

  lemma ImageLength(img: Image)
    requires IsImage(img)
    ensures |ImageBytes(img)| == NodePlace(img, |img.paths|)
  {
    hide IsImage;
  }

  lemma BeginsImage(img: Image, buffer: seq<byte>)
    requires Begins(img, buffer)
    ensures IsImage(img) && 0 < |img.paths| == |img.parents| && img.paths[0] == [] && img.parents[0] == 0
    ensures |buffer| <= NodePlace(img, |img.paths|)
    ensures buffer == ImageBytes(img) <==> |buffer| == NodePlace(img, |img.paths|)
  {
    ImageLength(img);
  }

  lemma HeaderRead(img: Image, buffer: seq<byte>)
    requires Begins(img, buffer) && HEADER_SIZE <= |buffer|
    ensures UnpackHeader(buffer[0..HEADER_SIZE])
            == IndexHeader(LeafCount(img), |img.paths|, img.version, ID_SIZE)
    ensures 0 < |img.paths|
  {
    hide LeafBytes, NodeBytes, UnpackHeader, IndexHeader.Pack;
    var leafs, nodes := LeafTable(img.trie, img.paths), NodeTable(img.trie, img.paths, img.parents);
    var h := IndexHeader(|leafs|, |nodes|, img.version, ID_SIZE);
    UnpackPackHeader(h);
    SliceLeft(h.Pack(), LeafBytes(leafs), 0, HEADER_SIZE);
    SliceLeft(h.Pack() + LeafBytes(leafs), NodeBytes(nodes), 0, HEADER_SIZE);
    SlicePrefix(buffer, ImageBytes(img), 0, HEADER_SIZE);
  }

  lemma LeafRead(img: Image, buffer: seq<byte>, k: nat)
    requires Begins(img, buffer) && k < LeafCount(img) && HEADER_SIZE + LEAF_SIZE * (k + 1) <= |buffer|
    ensures var at, id := HEADER_SIZE + LEAF_SIZE * k, LeafIds(img.trie, img.paths)[k];
            UnpackLeaf(buffer[at..at + LEAF_SIZE]) == LeafRecord(id, img.trie[img.paths[id]])
  {
    hide LeafBytes, NodeBytes, UnpackLeaf, IndexHeader.Pack, LeafRecord.Pack;
    var leafs, nodes := LeafTable(img.trie, img.paths), NodeTable(img.trie, img.paths, img.parents);
    var h := IndexHeader(|leafs|, |nodes|, img.version, ID_SIZE).Pack();
    LeafBytesAt(leafs, k);
    UnpackPackLeaf(leafs[k]);
    SliceRight(h, LeafBytes(leafs), LEAF_SIZE * k, LEAF_SIZE * k + LEAF_SIZE);
    SliceLeft(h + LeafBytes(leafs), NodeBytes(nodes), HEADER_SIZE + LEAF_SIZE * k, HEADER_SIZE + LEAF_SIZE * k + LEAF_SIZE);
    SlicePrefix(buffer, ImageBytes(img), HEADER_SIZE + LEAF_SIZE * k, HEADER_SIZE + LEAF_SIZE * k + LEAF_SIZE);
  }

  lemma NodeRead(img: Image, buffer: seq<byte>, i: nat)
    requires Begins(img, buffer) && i < |img.paths| && NodePlace(img, i + 1) <= |buffer|
    ensures |img.paths| == |img.parents| && AllIn(img.trie, img.paths)
    ensures UnpackNode(buffer[NodePlace(img, i)..NodePlace(img, i) + NODE_SIZE])
            == NodeOf(img.trie, img.paths, img.parents, i)
  {
    hide LeafBytes, NodeBytes, UnpackNode, IndexHeader.Pack, NodeRecord.Pack;
    var leafs, nodes := LeafTable(img.trie, img.paths), NodeTable(img.trie, img.paths, img.parents);
    var h := IndexHeader(|leafs|, |nodes|, img.version, ID_SIZE).Pack();
    NodeBytesAt(nodes, i);
    DepthBound(img.paths, img.parents, i);
    UnpackPackNode(nodes[i]);
    SliceRight(h + LeafBytes(leafs), NodeBytes(nodes), NODE_SIZE * i, NODE_SIZE * i + NODE_SIZE);
    SlicePrefix(buffer, ImageBytes(img), NodePlace(img, i), NodePlace(img, i) + NODE_SIZE);
  }

  /** What the record of the `i`-th node says. */
  lemma RecordRead(img: Image, buffer: seq<byte>, i: nat)
    requires Begins(img, buffer) && i < |img.paths| && NodePlace(img, i + 1) <= |buffer|
    ensures |img.paths| == |img.parents| && img.paths[i] in img.trie
    ensures var rec := UnpackNode(buffer[NodePlace(img, i)..NodePlace(img, i) + NODE_SIZE]);
            && rec.nodeId == i && rec.parentId == img.parents[i] && rec.depth == |img.paths[i]|
            && (rec.leafId != NO_ID <==> img.trie[img.paths[i]] != NO_ID)
            && (img.paths[i] != [] ==> rec.ch == Last(img.paths[i]))
  {
    hide UnpackNode, ImageBytes, LeafIds, BreadthFirst;
    NodeRead(img, buffer, i);
    assert img.paths[i] in img.paths;
  }

  /** The header of a serialized form: so many leafs, so many nodes, the version, and the width of ids. */
  lemma HeaderBytes(img: Image)
    requires IsImage(img)
    ensures var s := ImageBytes(img);
            && 19 <= |s| && Decode(s[0..8]) == LeafCount(img) && Decode(s[8..16]) == |img.paths|
            && s[16] == img.version.major && s[17] == img.version.minor && s[18] == 8
  {
    hide IsImage, ImageBytes;
    ImageLength(img);
    HeaderRead(img, ImageBytes(img));
    var s := ImageBytes(img);
    assert s[0..19][0..8] == s[0..8] && s[0..19][8..16] == s[8..16];
  }

  /** Behind it, the record of the `k`-th leaf: the id of its node, and the leaf. */
  lemma LeafRecordBytes(img: Image, k: nat)
    requires IsImage(img) && k < LeafCount(img)
    ensures var s, at, id := ImageBytes(img), 19 + 16 * k, LeafIds(img.trie, img.paths)[k];
            at + 16 <= |s| && Decode(s[at..at + 8]) == id && Decode(s[at + 8..at + 16]) == img.trie[img.paths[id]]
  {
    hide ImageBytes, UnpackLeaf;
    ImageLength(img);
    LeafRead(img, ImageBytes(img), k);
    LeafFields(ImageBytes(img), 19 + 16 * k);
  }

  lemma LeafFields(s: seq<byte>, at: nat)
    requires at + LEAF_SIZE <= |s|
    ensures UnpackLeaf(s[at..at + LEAF_SIZE]) == LeafRecord(Decode(s[at..at + 8]), Decode(s[at + 8..at + 16]))
  {
    SliceOfSlice(s, at, at + 16, 0, 8);
    SliceOfSlice(s, at, at + 16, 8, 16);
  }

  /** Behind these, the record of the `i`-th node: its id, its parent, its depth, its leaf, and its character. */
  lemma NodeRecordBytes(img: Image, i: nat)
    requires IsImage(img) && i < |img.paths|
    ensures |img.paths| == |img.parents| && img.paths[i] in img.trie
    ensures var s, at := ImageBytes(img), 19 + 16 * LeafCount(img) + 33 * i;
            && at + 33 <= |s|
            && Decode(s[at..at + 8]) == i && Decode(s[at + 8..at + 16]) == img.parents[i]
            && Decode(s[at + 16..at + 24]) == |img.paths[i]|
            && Decode(s[at + 24..at + 32]) == (if img.trie[img.paths[i]] == NO_ID then NO_ID
                                               else |LeafIds(img.trie, img.paths[..i])|)
            && s[at + 32] == if i == 0 then 0x2F else Last(img.paths[i])
  {
    hide ImageBytes, LeafIds, UnpackNode;
    ImageLength(img);
    NodeRead(img, ImageBytes(img), i);
    assert img.paths[i] in img.paths && (img.paths[i] == [] <==> i == 0);
    NodeFields(ImageBytes(img), 19 + 16 * LeafCount(img) + 33 * i);
  }

  /** The fields of a node record, by their places in the buffer. */
  lemma NodeFields(s: seq<byte>, at: nat)
    requires at + NODE_SIZE <= |s|
    ensures UnpackNode(s[at..at + NODE_SIZE])
            == NodeRecord(Decode(s[at..at + 8]), Decode(s[at + 8..at + 16]), Decode(s[at + 16..at + 24]),
                          Decode(s[at + 24..at + 32]), s[at + 32])
  {
    SliceOfSlice(s, at, at + 33, 0, 8);
    SliceOfSlice(s, at, at + 33, 8, 16);
    SliceOfSlice(s, at, at + 33, 16, 24);
    SliceOfSlice(s, at, at + 33, 24, 32);
  }

  lemma SlicePrefix(s: seq<byte>, whole: seq<byte>, from: nat, to: nat)
    requires s <= whole && from <= to <= |s|
    ensures s[from..to] == whole[from..to]
  {
  }

  lemma {:induction false} DepthBound(paths: seq<Key>, parents: seq<nat>, i: nat)
    requires BreadthFirst(paths, parents) && i < |paths|
    ensures |paths[i]| <= i
  {
    if i > 0 {
      DepthBound(paths, parents, parents[i]);
    }
  }

  lemma {:induction false} LeafIdsComplete(trie: Trie, paths: seq<Key>, i: nat)
    requires AllIn(trie, paths) && i < |paths| && trie[paths[i]] != NO_ID
    ensures i in LeafIds(trie, paths)
  {
    if i < |paths| - 1 {
      assert paths[..|paths| - 1][i] == paths[i];
      LeafIdsComplete(trie, paths[..|paths| - 1], i);
    }
  }

  // ------------------------------------------------------------------- the leaf table

  function Emplaced<V>(m: map<nat, V>, k: nat, v: V): map<nat, V> {
    if k in m then m else m[k := v]
  }

  /** What is known after `k` leaf records: their leafs are there, and nothing that is there is wrong. */
  ghost predicate LeafsRead(img: Image, k: nat, leafs: map<nat, nat>)
    requires IsImage(img)
  {
    var ids := LeafIds(img.trie, img.paths);
    && k <= |ids|
    && (forall j | 0 <= j < k :: ids[j] in leafs)
    && (forall id | id in leafs :: id < |img.paths| && leafs[id] == img.trie[img.paths[id]])
  }

  lemma NoLeafsRead(img: Image, buffer: seq<byte>)
    requires Begins(img, buffer)
    ensures IsImage(img) && LeafsRead(img, 0, map[])
  {
  }

  lemma LeafAdded(img: Image, buffer: seq<byte>, k: nat, leafs: map<nat, nat>)
    requires Begins(img, buffer) && k < LeafCount(img) && HEADER_SIZE + LEAF_SIZE * (k + 1) <= |buffer|
    requires LeafsRead(img, k, leafs)
    ensures var at := HEADER_SIZE + LEAF_SIZE * k;
            var rec := UnpackLeaf(buffer[at..at + LEAF_SIZE]);
            LeafsRead(img, k + 1, Emplaced(leafs, rec.nodeId, rec.leaf))
  {
    hide LeafIds, UnpackLeaf, ImageBytes, BreadthFirst;
    LeafRead(img, buffer, k);
  }

  lemma LeafFound(img: Image, leafs: map<nat, nat>, i: nat)
    requires IsImage(img) && LeafsRead(img, LeafCount(img), leafs) && i < |img.paths| && img.paths[i] in img.trie
    ensures img.trie[img.paths[i]] != NO_ID ==> i in leafs && leafs[i] == img.trie[img.paths[i]]
  {
    hide BreadthFirst;
    if img.trie[img.paths[i]] != NO_ID {
      LeafIdsComplete(img.trie, img.paths, i);
    }
  }

  /** The header and the leaf table are read, and the node records come next. */
  ghost predicate NodesFollow(img: Image, buffer: seq<byte>, begin: nat, nodesCount: nat, leafs: map<nat, nat>) {
    Begins(img, buffer) && begin == NodePlace(img, 0) && nodesCount == |img.paths| && LeafsRead(img, LeafCount(img), leafs)
  }

  lemma FollowingNodes(img: Image, buffer: seq<byte>, begin: nat, nodesCount: nat, leafs: map<nat, nat>)
    requires NodesFollow(img, buffer, begin, nodesCount, leafs)
    ensures Begins(img, buffer) && IsImage(img) && begin == NodePlace(img, 0)
    ensures nodesCount == |img.paths| == |img.parents| && img.paths[0] == [] && img.parents[0] == 0
    ensures LeafsRead(img, LeafCount(img), leafs)
    ensures |buffer| <= NodePlace(img, nodesCount)
    ensures buffer == ImageBytes(img) <==> |buffer| == NodePlace(img, nodesCount)
  {
    BeginsImage(img, buffer);
  }

  // ---------------------------------------------------------------- the rebuilt nodes

  /** The first `n` nodes are rebuilt. The leaf of the root is not among what is restored. */
  ghost predicate Rebuilt(img: Image, n: nat, t: Trie)
    requires IsImage(img)
  {
    && 1 <= n <= |img.paths|
    && (forall p | p in t :: p in img.paths[..n])
    && (forall i | 0 <= i < n :: img.paths[i] in t)
    && (forall i | 0 <= i < n :: t[img.paths[i]] == if i == 0 then NO_ID else img.trie[img.paths[i]])
  }

  /** `level` holds the nodes of one depth among the first `n`. */
  ghost predicate Level(img: Image, n: nat, nodes: map<Key, Node>, level: map<nat, NodeDescriptor>, depth: nat)
    requires n <= |img.paths|
  {
    && (forall id: nat {:trigger id in level} :: id in level <==> id < n && |img.paths[id]| == depth)
    && (forall id | id in level :: img.paths[id] in nodes && level[id].node == nodes[img.paths[id]])
  }

  /** The nodes of the previous and of the current level, and the depth of the current one. */
  datatype Levels = Levels(previous: map<nat, NodeDescriptor>, current: map<nat, NodeDescriptor>, depth: nat) {
    /** At a deeper record the current level becomes the previous one. */
    function Descend(depth: nat): Levels {
      if this.depth < depth then Levels(current, map[], this.depth + 1) else this
    }
  }

  ghost predicate BothLevels(img: Image, n: nat, nodes: map<Key, Node>, levels: Levels)
    requires n <= |img.paths|
  {
    && 1 <= levels.depth && Level(img, n, nodes, levels.previous, levels.depth - 1)
    && Level(img, n, nodes, levels.current, levels.depth)
  }

  /** What holds between two node records. */
  ghost predicate Progress(img: Image, n: nat, nodes: map<Key, Node>, t: Trie, levels: Levels) {
    && IsImage(img) && Rebuilt(img, n, t) && t.Keys == nodes.Keys && BothLevels(img, n, nodes, levels)
    && levels.depth == if n == 1 then 1 else |img.paths[n - 1]|
  }

  lemma ProgressStarts(img: Image, nodes: map<Key, Node>, d: NodeDescriptor)
    requires IsImage(img) && d.nodeId == 0 && nodes == map[[] := d.node]
    ensures Progress(img, 1, nodes, map[[] := NO_ID], Levels(map[d.nodeId := d], map[], 1))
  {
  }

  /** The parent of a record stands one level above it, and no level is left out. */
  lemma ParentAbove(img: Image, n: nat)
    requires IsImage(img) && 0 < n < |img.paths|
    ensures |img.parents| == |img.paths| && img.parents[n] < n && img.paths[n] != []
    ensures |img.paths[img.parents[n]]| == |img.paths[n]| - 1
    ensures Child(img.paths[img.parents[n]], Last(img.paths[n])) == img.paths[n]
    ensures |img.paths[n - 1]| <= |img.paths[n]| <= |img.paths[n - 1]| + 1
    ensures n == 1 ==> |img.paths[n]| == 1
  {
    assert img.paths[img.parents[n]] == Parent(img.paths[n]);
    assert |img.paths[img.parents[n]]| <= |img.paths[n - 1]|;
  }

  lemma NoneDeeper(img: Image, n: nat)
    requires IsImage(img) && 0 < n <= |img.paths|
    ensures forall id: nat | id < n :: |img.paths[id]| <= |img.paths[n - 1]|
  {
  }

  lemma RebuiltCount(img: Image, n: nat, t: Trie)
    requires IsImage(img) && Rebuilt(img, n, t)
    ensures 1 <= n <= |img.paths|
  {
  }

  /** The parent of the next record is on the previous level. */
  lemma NextLevel(img: Image, n: nat, nodes: map<Key, Node>, t: Trie, levels: Levels)
    requires Progress(img, n, nodes, t, levels) && n < |img.paths|
    ensures 0 < n && levels.Descend(|img.paths[n]|).depth == |img.paths[n]|
    ensures BothLevels(img, n, nodes, levels.Descend(|img.paths[n]|))
  {
    hide IsImage, Rebuilt;
    RebuiltCount(img, n, t);
    ParentAbove(img, n);
    NoneDeeper(img, n);
  }

  /** Where the next record is hung: its path is new, and its parent is on the previous level. */
  lemma NextIsNew(img: Image, n: nat, nodes: map<Key, Node>, t: Trie, previous: map<nat, NodeDescriptor>)
    requires IsImage(img) && Rebuilt(img, n, t) && t.Keys == nodes.Keys && 0 < n < |img.paths| == |img.parents|
    requires img.paths[n] != [] && Level(img, n, nodes, previous, |img.paths[n]| - 1)
    ensures img.paths[n] !in nodes && img.parents[n] < n && img.parents[n] in previous
    ensures img.paths[img.parents[n]] in nodes && previous[img.parents[n]].node == nodes[img.paths[img.parents[n]]]
  {
    hide Parent, Last, Child;
    ParentAbove(img, n);
  }

  lemma RebuiltNext(img: Image, n: nat, t: Trie)
    requires IsImage(img) && Rebuilt(img, n, t) && 0 < n < |img.paths| && img.paths[n] !in t
    requires img.paths[n] in img.trie
    ensures Rebuilt(img, n + 1, t[img.paths[n] := img.trie[img.paths[n]]])
  {
    hide BreadthFirst;
    var t' := t[img.paths[n] := img.trie[img.paths[n]]];
    assert img.paths[..n + 1] == img.paths[..n] + [img.paths[n]];
  }

  lemma LevelNext(img: Image, n: nat, nodes: map<Key, Node>, level: map<nat, NodeDescriptor>, depth: nat,
                  d: NodeDescriptor)
    requires n < |img.paths| && Level(img, n, nodes, level, depth) && img.paths[n] !in nodes
    ensures Level(img, n + 1, nodes[img.paths[n] := d.node],
                  if |img.paths[n]| == depth then Emplaced(level, n, d) else level, depth)
  {
  }

  /** `rec` is the record of the `n`-th node: it names its parent, its character and its leaf. */
  ghost predicate Placed(img: Image, n: nat, nodes: map<Key, Node>, previous: map<nat, NodeDescriptor>,
                         leafs: map<nat, nat>, rec: NodeRecord)
  {
    && n < |img.paths| == |img.parents| && img.paths[n] in img.trie && img.paths[n] !in nodes
    && rec.nodeId == n && rec.parentId == img.parents[n] < n && rec.parentId in previous
    && img.paths[rec.parentId] in nodes && previous[rec.parentId].node == nodes[img.paths[rec.parentId]]
    && Child(img.paths[rec.parentId], rec.ch) == img.paths[n]
    && (rec.leafId != NO_ID ==> n in leafs)
    && img.trie[img.paths[n]] == if rec.leafId != NO_ID then leafs[n] else NO_ID
  }

  lemma NextRecord(img: Image, buffer: seq<byte>, n: nat, nodes: map<Key, Node>, t: Trie, levels: Levels,
                   leafs: map<nat, nat>, rec: NodeRecord)
    requires Begins(img, buffer) && n < |img.paths| && NodePlace(img, n + 1) <= |buffer|
    requires rec == UnpackNode(buffer[NodePlace(img, n)..NodePlace(img, n) + NODE_SIZE])
    requires LeafsRead(img, LeafCount(img), leafs)
    requires Progress(img, n, nodes, t, levels)
    ensures Placed(img, n, nodes, levels.Descend(rec.depth).previous, leafs, rec)
    ensures rec.depth == |img.paths[n]|
  {
    hide IsImage, ImageBytes, Rebuilt, Level, LeafsRead, UnpackNode, LeafCount, Child, Last;
    NextLevel(img, n, nodes, t, levels);
    RecordRead(img, buffer, n);
    ParentAbove(img, n);
    NextIsNew(img, n, nodes, t, levels.Descend(|img.paths[n]|).previous);
    LeafFound(img, leafs, n);
  }

  /** One more record is rebuilt. */
  lemma ProgressNext(img: Image, n: nat, nodes: map<Key, Node>, t: Trie, levels: Levels, d: NodeDescriptor)
    requires Progress(img, n, nodes, t, levels) && n < |img.paths| && d.nodeId == n
    requires img.paths[n] !in nodes && img.paths[n] in img.trie
    ensures var p := img.paths[n];
            var levels' := levels.Descend(|p|);
            Progress(img, n + 1, nodes[p := d.node], t[p := img.trie[p]],
                     levels'.(current := Emplaced(levels'.current, n, d)))
  {
    hide IsImage, Rebuilt, Level;
    var p := img.paths[n];
    NextLevel(img, n, nodes, t, levels);
    var levels' := levels.Descend(|p|);
    RebuiltNext(img, n, t);
    LevelNext(img, n, nodes, levels'.previous, levels'.depth - 1, d);
    LevelNext(img, n, nodes, levels'.current, levels'.depth, d);
    assert t[p := img.trie[p]].Keys == nodes[p := d.node].Keys;
  }

  /** When all records are read, the trie is back, but for the leaf of the root. */
  lemma ProgressEnds(img: Image, nodes: map<Key, Node>, t: Trie, levels: Levels)
    requires Progress(img, |img.paths|, nodes, t, levels)
    ensures t == img.trie[[] := NO_ID]
  {
    hide BothLevels;
    assert img.paths[..|img.paths|] == img.paths && img.paths[0] == [];
    forall p | p in t
      ensures p in img.trie && t[p] == if p == [] then NO_ID else img.trie[p]
    {
      var i :| 0 <= i < |img.paths| && img.paths[i] == p;
    }
    forall p | p in img.trie
      ensures p in t
    {
      var i :| 0 <= i < |img.paths| && img.paths[i] == p;
    }
  }
}
