/** What holds of every serialized index, whatever order the routes of its nodes came in. */
module IndexProperties {
  import opened Bytes
  import opened AhoCorasick
  import opened IndexFormat
  import opened IndexReading
  import opened Versions

  /** The buffer is just as long as its header says. */
  ghost predicate Whole(buffer: seq<byte>) {
    && HEADER_SIZE <= |buffer|
    && var h := UnpackHeader(buffer[0..HEADER_SIZE]); |buffer| == SerializedLength(h.leafsCount, h.nodesCount)
  }

  /** The number of node records, and each of them, as a reader finds them. */
  function NodesCount(buffer: seq<byte>): nat
    requires HEADER_SIZE <= |buffer|
  { UnpackHeader(buffer[0..HEADER_SIZE]).nodesCount }

  ghost function RecordAt(buffer: seq<byte>, i: nat): NodeRecord
    requires Whole(buffer) && i < NodesCount(buffer)
  {
    var at := SerializedLength(UnpackHeader(buffer[0..HEADER_SIZE]).leafsCount, i);
    UnpackNode(buffer[at..at + NODE_SIZE])
  }

  /**
   * Whatever trie was serialized, its records are numbered, go level by level, and name a parent that stands before them
   * and exactly one level higher; only the root is its own parent.
   */
  lemma RecordsAreLevelled(buffer: seq<byte>, t: Trie, version: Version, i: nat, j: nat)
    requires Serializes(buffer, t, version)
    ensures Whole(buffer) && NodesCount(buffer) == |t.Keys|
    ensures i <= j < NodesCount(buffer) ==>
              var a, b := RecordAt(buffer, i), RecordAt(buffer, j);
              && b.nodeId == j && a.depth <= b.depth
              && (b.parentId == b.nodeId <==> j == 0)
              && (j > 0 ==> b.parentId < j && RecordAt(buffer, b.parentId).depth + 1 == b.depth)
  {
    hide IsImage, ImageBytes, UnpackHeader, UnpackNode, LeafCount;
    var img :| IsImage(img) && img.trie == t && img.version == version && buffer == ImageBytes(img);
    ImageIsWhole(img, buffer);
    if i <= j < NodesCount(buffer) {
      RecordIs(img, buffer, i);
      RecordIs(img, buffer, j);
      LevelsRise(img, i, j);
      if j > 0 {
        ParentAbove(img, j);
        RecordIs(img, buffer, img.parents[j]);
      }
    }
  }

  lemma ImageIsWhole(img: Image, buffer: seq<byte>)
    requires IsImage(img) && buffer == ImageBytes(img)
    ensures Whole(buffer) && NodesCount(buffer) == |img.paths| == |img.trie.Keys|
    ensures UnpackHeader(buffer[0..HEADER_SIZE]).leafsCount == LeafCount(img)
  {
    hide IsImage, ImageBytes, UnpackHeader;
    ImageLength(img);
    HeaderRead(img, buffer);
    EveryNodeOnce(img, []);
  }

  lemma RecordIs(img: Image, buffer: seq<byte>, i: nat)
    requires IsImage(img) && buffer == ImageBytes(img) && Whole(buffer) && NodesCount(buffer) == |img.paths|
    requires UnpackHeader(buffer[0..HEADER_SIZE]).leafsCount == LeafCount(img) && i < |img.paths|
    ensures |img.parents| == |img.paths|
    ensures var rec := RecordAt(buffer, i);
            rec.nodeId == i && rec.parentId == img.parents[i] && rec.depth == |img.paths[i]|
  {
    hide IsImage, ImageBytes, UnpackHeader, UnpackNode;
    ImageLength(img);
    RecordRead(img, buffer, i);
  }

  lemma LevelsRise(img: Image, i: nat, j: nat)
    requires IsImage(img) && i <= j < |img.paths|
    ensures |img.parents| == |img.paths| && |img.paths[i]| <= |img.paths[j]|
    ensures img.parents[0] == 0 && (j > 0 ==> img.parents[j] < j)
  {
  }

  /** Each node of the trie has exactly one record, and there are no others. */
  lemma EveryNodeOnce(img: Image, p: Key)
    requires IsImage(img)
    ensures p in img.trie <==> p in img.paths
    ensures forall i, j | 0 <= i < j < |img.paths| :: img.paths[i] != img.paths[j]
    ensures |img.paths| == |img.trie.Keys|
  {
    ListedAreKeys(img.paths, img.trie.Keys);
  }

  lemma {:induction false} ListedAreKeys(paths: seq<Key>, keys: set<Key>)
    requires forall p :: p in paths <==> p in keys
    requires forall i, j | 0 <= i < j < |paths| :: paths[i] != paths[j]
    ensures |paths| == |keys|
  {
    if paths != [] {
      var last := |paths| - 1;
      assert paths[last] in paths && paths == paths[..last] + [paths[last]];
      ListedAreKeys(paths[..last], keys - {paths[last]});
    }
  }

  /** The leaf table holds the ids of exactly the nodes with leafs, and a record names a leaf just when there is one. */
  lemma LeafTableIsExact(img: Image, i: nat)
    requires IsImage(img) && i < |img.paths|
    ensures var leafs, rs := LeafTable(img.trie, img.paths), NodeTable(img.trie, img.paths, img.parents);
            var has := img.trie[img.paths[i]] != NO_ID;
            && (has <==> LeafRecord(i, img.trie[img.paths[i]]) in leafs)
            && (has <==> rs[i].leafId != NO_ID)
            && (has ==> rs[i].leafId < |leafs| && leafs[rs[i].leafId] == LeafRecord(i, img.trie[img.paths[i]]))
  {
    var ids, leafs := LeafIds(img.trie, img.paths), LeafTable(img.trie, img.paths);
    if img.trie[img.paths[i]] != NO_ID {
      LeafIdsAt(img.trie, img.paths, i);
      var k := |LeafIds(img.trie, img.paths[..i])|;
      assert leafs[k] == LeafRecord(i, img.trie[img.paths[i]]);
    }
  }

  /** The position of a leaf is the number of leafs before it. */
  lemma {:induction false} LeafIdsAt(trie: Trie, paths: seq<Key>, i: nat)
    requires AllIn(trie, paths) && i < |paths| && trie[paths[i]] != NO_ID
    ensures |LeafIds(trie, paths[..i])| < |LeafIds(trie, paths)|
    ensures LeafIds(trie, paths)[|LeafIds(trie, paths[..i])|] == i
  {
    if i < |paths| - 1 {
      assert paths[..|paths| - 1][i] == paths[i] && paths[..|paths| - 1][..i] == paths[..i];
      LeafIdsAt(trie, paths[..|paths| - 1], i);
    }
  }

  /** Tries with the same serialized form are equal, leaf of the root included. */
  lemma SerializedFormDecides(a: Image, b: Image)
    requires IsImage(a) && IsImage(b) && ImageBytes(a) == ImageBytes(b)
    ensures a.trie == b.trie && a.paths == b.paths && a.version == b.version
  {
    hide IsImage, ImageBytes, UnpackHeader;
    ImageLength(a);
    ImageLength(b);
    HeaderRead(a, ImageBytes(a));
    HeaderRead(b, ImageBytes(a));
    forall i | 0 <= i < |a.paths|
      ensures a.paths[i] == b.paths[i]
    {
      SamePath(a, b, i);
    }
    SameTrie(a, b);
  }

  lemma SameRecord(a: Image, b: Image, i: nat)
    requires IsImage(a) && IsImage(b) && ImageBytes(a) == ImageBytes(b) && i < |a.paths| == |b.paths|
    requires LeafCount(a) == LeafCount(b)
    ensures NodeOf(a.trie, a.paths, a.parents, i) == NodeOf(b.trie, b.paths, b.parents, i)
  {
    hide BreadthFirst, ImageBytes, UnpackNode, NodeOf;
    ImageLength(a);
    NodeRead(a, ImageBytes(a), i);
    NodeRead(b, ImageBytes(a), i);
  }

  lemma {:induction false} SamePath(a: Image, b: Image, i: nat)
    requires IsImage(a) && IsImage(b) && ImageBytes(a) == ImageBytes(b) && i < |a.paths| == |b.paths|
    requires LeafCount(a) == LeafCount(b)
    ensures a.paths[i] == b.paths[i]
  {
    hide ImageBytes, LeafCount;
    SameRecord(a, b, i);
    if i > 0 {
      hide IsImage, Child, Last;
      ParentAbove(a, i);
      ParentAbove(b, i);
      SamePath(a, b, a.parents[i]);
    } else {
      assert a.paths[0] == [] == b.paths[0];
    }
  }

  lemma SameTrie(a: Image, b: Image)
    requires IsImage(a) && IsImage(b) && ImageBytes(a) == ImageBytes(b) && a.paths == b.paths
    requires LeafCount(a) == LeafCount(b)
    ensures a.trie == b.trie
  {
    hide ImageBytes, BreadthFirst, LeafCount;
    forall p | p in a.trie
      ensures p in b.trie && a.trie[p] == b.trie[p]
    {
      var i :| 0 <= i < |a.paths| && a.paths[i] == p;
      SameLeaf(a, b, i);
    }
    forall p | p in b.trie
      ensures p in a.trie
    {
      var i :| 0 <= i < |b.paths| && b.paths[i] == p;
      SameLeaf(a, b, i);
    }
  }

  lemma SameLeaf(a: Image, b: Image, i: nat)
    requires IsImage(a) && IsImage(b) && ImageBytes(a) == ImageBytes(b) && a.paths == b.paths && i < |a.paths|
    requires LeafCount(a) == LeafCount(b)
    ensures a.paths[i] in a.trie && a.paths[i] in b.trie && a.trie[a.paths[i]] == b.trie[a.paths[i]]
  {
    hide ImageBytes, BreadthFirst, UnpackLeaf, IndexReading.LeafsRead;
    var p := a.paths[i];
    assert p in a.paths && p in b.paths;
    if a.trie[p] != NO_ID {
      LeafIdsComplete(a.trie, a.paths, i);
      var k :| 0 <= k < LeafCount(a) && LeafIds(a.trie, a.paths)[k] == i;
      SameLeafRecord(a, b, k);
    }
    if b.trie[p] != NO_ID {
      LeafIdsComplete(b.trie, b.paths, i);
      var k :| 0 <= k < LeafCount(b) && LeafIds(b.trie, b.paths)[k] == i;
      SameLeafRecord(a, b, k);
    }
  }

  lemma SameLeafRecord(a: Image, b: Image, k: nat)
    requires IsImage(a) && IsImage(b) && ImageBytes(a) == ImageBytes(b) && a.paths == b.paths
    requires k < LeafCount(a) == LeafCount(b)
    ensures var i := LeafIds(a.trie, a.paths)[k];
            LeafIds(b.trie, b.paths)[k] == i && a.trie[a.paths[i]] == b.trie[a.paths[i]]
  {
    hide BreadthFirst, UnpackLeaf, ImageBytes;
    ImageLength(a);
    LeafRead(a, ImageBytes(a), k);
    LeafRead(b, ImageBytes(a), k);
  }

  /** Rebuilding gives the trie back exactly when the root has no leaf. */
  lemma RootLeafIsLost(img: Image)
    requires IsImage(img)
    ensures [] in img.trie && (img.trie[[] := NO_ID] == img.trie <==> img.trie[[]] == NO_ID)
  {
    hide BreadthFirst;
    RootListed(img);
    var t := img.trie[[] := NO_ID];
    assert t[[]] == NO_ID;
    if img.trie[[]] == NO_ID {
      assert t.Keys == img.trie.Keys;
    }
  }

  lemma RootListed(img: Image)
    requires IsImage(img)
    ensures [] in img.trie
  {
    assert img.paths[0] in img.paths;
  }
}
