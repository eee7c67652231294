/** The serialized form of an index: header, leaf table, then one record per node in breadth-first order. */
module IndexFormat {
  import opened Bytes
  import opened AhoCorasick
  import opened Versions

  /** Ids and leaf values are 8 bytes wide; the greatest id stands for "no leaf". */
  const NO_ID: nat := U64 - 1
  const ID_SIZE: byte := 8
  const HEADER_SIZE: nat := 19
  const LEAF_SIZE: nat := 16
  const NODE_SIZE: nat := 33
  /** The character recorded for the root. */
  const ROOT_CHAR: byte := 0x2F

  datatype IndexHeader = IndexHeader(leafsCount: nat, nodesCount: nat, version: Version, idSize: byte) {
    function Pack(): (s: seq<byte>)
      ensures |s| == HEADER_SIZE
    { Words([leafsCount, nodesCount]) + [version.major, version.minor, idSize] }
  }

  datatype LeafRecord = LeafRecord(nodeId: nat, leaf: nat) {
    function Pack(): (s: seq<byte>)
      ensures |s| == LEAF_SIZE
    { Words([nodeId, leaf]) }
  }

  datatype NodeRecord = NodeRecord(nodeId: nat, parentId: nat, depth: nat, leafId: nat, ch: byte) {
    function Pack(): (s: seq<byte>)
      ensures |s| == NODE_SIZE
    { Words([nodeId, parentId, depth, leafId]) + [ch] }
  }

  /** A node that is being written or rebuilt, with its id and that of its parent. */
  datatype NodeDescriptor = NodeDescriptor(nodeId: nat, node: Node, parentId: nat, ch: byte)

  function UnpackHeader(s: seq<byte>): IndexHeader
    requires |s| == HEADER_SIZE
  { IndexHeader(Decode(s[0..8]), Decode(s[8..16]), Version(s[16], s[17]), s[18]) }

  function UnpackLeaf(s: seq<byte>): LeafRecord
    requires |s| == LEAF_SIZE
  { LeafRecord(Decode(s[0..8]), Decode(s[8..16])) }

  function UnpackNode(s: seq<byte>): NodeRecord
    requires |s| == NODE_SIZE
  { NodeRecord(Decode(s[0..8]), Decode(s[8..16]), Decode(s[16..24]), Decode(s[24..32]), s[32]) }

  lemma UnpackPackHeader(h: IndexHeader)
    requires h.leafsCount < U64 && h.nodesCount < U64
    ensures UnpackHeader(h.Pack()) == h
  {
    var w, t := Words([h.leafsCount, h.nodesCount]), [h.version.major, h.version.minor, h.idSize];
    WordsAt([h.leafsCount, h.nodesCount], 0);
    WordsAt([h.leafsCount, h.nodesCount], 1);
    SliceLeft(w, t, 0, 8);
    SliceLeft(w, t, 8, 16);
  }

  lemma UnpackPackLeaf(r: LeafRecord)
    requires r.nodeId < U64 && r.leaf < U64
    ensures UnpackLeaf(r.Pack()) == r
  {
    WordsAt([r.nodeId, r.leaf], 0);
    WordsAt([r.nodeId, r.leaf], 1);
  }

  lemma UnpackPackNode(r: NodeRecord)
    requires r.nodeId < U64 && r.parentId < U64 && r.depth < U64 && r.leafId < U64
    ensures UnpackNode(r.Pack()) == r
  {
    var xs := [r.nodeId, r.parentId, r.depth, r.leafId];
    var w, t := Words(xs), [r.ch];
    WordsAt(xs, 0);
    WordsAt(xs, 1);
    WordsAt(xs, 2);
    WordsAt(xs, 3);
    SliceLeft(w, t, 0, 8);
    SliceLeft(w, t, 8, 16);
    SliceLeft(w, t, 16, 24);
    SliceLeft(w, t, 24, 32);
  }

  // ------------------------------------------------------------------------- tables

  function LeafBytes(rs: seq<LeafRecord>): (s: seq<byte>)
    ensures |s| == LEAF_SIZE * |rs|
  { if rs == [] then [] else LeafBytes(rs[..|rs| - 1]) + rs[|rs| - 1].Pack() }

  function NodeBytes(rs: seq<NodeRecord>): (s: seq<byte>)
    ensures |s| == NODE_SIZE * |rs|
  { if rs == [] then [] else NodeBytes(rs[..|rs| - 1]) + rs[|rs| - 1].Pack() }

  lemma {:induction false} LeafBytesAt(rs: seq<LeafRecord>, i: nat)
    requires i < |rs|
    ensures LeafBytes(rs)[LEAF_SIZE * i..LEAF_SIZE * i + LEAF_SIZE] == rs[i].Pack()
  {
    var a, b := LeafBytes(rs[..|rs| - 1]), rs[|rs| - 1].Pack();
    if i == |rs| - 1 {
      SliceRight(a, b, 0, LEAF_SIZE);
    } else {
      LeafBytesAt(rs[..|rs| - 1], i);
      SliceLeft(a, b, LEAF_SIZE * i, LEAF_SIZE * i + LEAF_SIZE);
    }
  }

  lemma {:induction false} NodeBytesAt(rs: seq<NodeRecord>, i: nat)
    requires i < |rs|
    ensures NodeBytes(rs)[NODE_SIZE * i..NODE_SIZE * i + NODE_SIZE] == rs[i].Pack()
  {
    var a, b := NodeBytes(rs[..|rs| - 1]), rs[|rs| - 1].Pack();
    if i == |rs| - 1 {
      SliceRight(a, b, 0, NODE_SIZE);
    } else {
      NodeBytesAt(rs[..|rs| - 1], i);
      SliceLeft(a, b, NODE_SIZE * i, NODE_SIZE * i + NODE_SIZE);
    }
  }

  // ------------------------------------------------------------------ breadth-first images

  /**
   * A trie listed in breadth-first order: the paths of its nodes, each with the position of its parent. Which of the
   * orders it is depends on the iteration order of the routes of each node.
   */
  datatype Image = Image(trie: Trie, paths: seq<Key>, parents: seq<nat>, version: Version)

  ghost predicate AllIn(trie: Trie, paths: seq<Key>) {
    forall p | p in paths :: p in trie
  }

  /** The positions of the nodes that have a leaf. */
  ghost function LeafIds(trie: Trie, paths: seq<Key>): (ids: seq<nat>)
    requires AllIn(trie, paths)
    ensures |ids| <= |paths|
    ensures forall k | 0 <= k < |ids| :: ids[k] < |paths| && trie[paths[ids[k]]] != NO_ID
  {
    if paths == [] then []
    else
      var last := |paths| - 1;
      LeafIds(trie, paths[..last]) + if trie[paths[last]] != NO_ID then [last] else []
  }

  /** Depths never decrease along the list, and each parent stands before its children. */
  ghost predicate BreadthFirst(paths: seq<Key>, parents: seq<nat>) {
    && 0 < |paths| == |parents| && paths[0] == [] && parents[0] == 0
    && (forall i | 0 < i < |paths| ::
          paths[i] != [] && parents[i] < i && paths[parents[i]] == Parent(paths[i]))
    && (forall i, j | 0 <= i < j < |paths| :: |paths[i]| <= |paths[j]|)
    && (forall i, j | 0 <= i < j < |paths| :: paths[i] != paths[j])
  }

  ghost predicate IsImage(img: Image) {
    && BreadthFirst(img.paths, img.parents)
    && AllIn(img.trie, img.paths) && (forall p | p in img.trie :: p in img.paths)
    && (forall p | p in img.trie :: img.trie[p] < U64)
    && |img.paths| < NO_ID
  }

  /** The record of the `i`-th node. Its leaf id counts the leaves before it. */
  ghost function NodeOf(trie: Trie, paths: seq<Key>, parents: seq<nat>, i: nat): NodeRecord
    requires i < |paths| == |parents| && AllIn(trie, paths)
  {
    NodeRecord(i, parents[i], |paths[i]|,
               if trie[paths[i]] != NO_ID then |LeafIds(trie, paths[..i])| else NO_ID,
               if paths[i] == [] then ROOT_CHAR else Last(paths[i]))
  }

  ghost function NodeTable(trie: Trie, paths: seq<Key>, parents: seq<nat>): (rs: seq<NodeRecord>)
    requires |paths| == |parents| && AllIn(trie, paths)
  { seq(|paths|, i requires 0 <= i < |paths| => NodeOf(trie, paths, parents, i)) }

  ghost function LeafTable(trie: Trie, paths: seq<Key>): (rs: seq<LeafRecord>)
    requires AllIn(trie, paths)
  {
    var ids := LeafIds(trie, paths);
    seq(|ids|, k requires 0 <= k < |ids| => LeafRecord(ids[k], trie[paths[ids[k]]]))
  }

  ghost function BufferOf(leafs: seq<LeafRecord>, nodes: seq<NodeRecord>, version: Version): seq<byte> {
    IndexHeader(|leafs|, |nodes|, version, ID_SIZE).Pack() + LeafBytes(leafs) + NodeBytes(nodes)
  }

  /** The serialized form of a trie listed in this order. */
  ghost function ImageBytes(img: Image): seq<byte>
    requires IsImage(img)
  {
    BufferOf(LeafTable(img.trie, img.paths), NodeTable(img.trie, img.paths, img.parents), img.version)
  }

  /** How long the serialized form of an index with so many leafs and nodes is. */
  function SerializedLength(leafs: nat, nodes: nat): nat { HEADER_SIZE + LEAF_SIZE * leafs + NODE_SIZE * nodes }

  /** `buffer` is a serialized form of the trie, for one of the orders in which its nodes can be listed. */
  ghost predicate Serializes(buffer: seq<byte>, t: Trie, version: Version) {
    exists img :: IsImage(img) && img.trie == t && img.version == version && buffer == ImageBytes(img)
  }
}
