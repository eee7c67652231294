/** The index a volume or a storage works with: an engine that is never given the empty key. */
module InvertedIndex {
  import opened Bytes
  import opened Errors
  import opened AhoCorasick
  import opened AhoCorasickSerialization
  import opened IndexFormat
  import opened Versions
  import opened IndexReading
  import opened IndexProperties

  /** The keys that have a leaf. */
  ghost function LeafsOf(t: Trie, none: nat): map<Key, nat> {
    map p | p in t && t[p] != none :: t[p]
  }

  lemma LookupLeaf(t: Trie, key: Key, none: nat)
    ensures Lookup(t, key, none) == if key in LeafsOf(t, none) then LeafsOf(t, none)[key] else none
    ensures Lookup(t, key, none) != none <==> key in LeafsOf(t, none)
  {
  }

  lemma LeafsInserted(t: Trie, key: Key, leaf: nat, none: nat)
    ensures LeafsOf(Inserted(t, key, leaf, none), none)
            == if leaf == none then LeafsOf(t, none) - {key} else LeafsOf(t, none)[key := leaf]
    ensures Inserted(t, key, leaf, none).Keys == t.Keys + Prefixes(key)
  {
    hide Prefixes;
    PrefixesAre(key, key);
  }

  lemma LeafsDeleted(t: Trie, key: Key, none: nat)
    ensures LeafsOf(Deleted(t, key, none), none) == LeafsOf(t, none) - {key}
    ensures Deleted(t, key, none).Keys == t.Keys
  {
    var t' := Deleted(t, key, none);
    assert t'.Keys == t.Keys;
    assert forall p :: p in LeafsOf(t', none) <==> p in LeafsOf(t, none) && p != key;
    assert LeafsOf(t', none).Keys == LeafsOf(t, none).Keys - {key};
  }

  /** No leaf at the root, and every leaf within the range of its type. */
  ghost predicate Indexes(t: Trie, none: nat) {
    && [] in t && t[[]] == none
    && forall p | p in t :: t[p] <= none
  }

  lemma IndexesInserted(t: Trie, key: Key, leaf: nat, none: nat)
    requires Indexes(t, none) && key != [] && leaf <= none
    ensures Indexes(Inserted(t, key, leaf, none), none)
  {
    hide Prefixes;
  }

  class InvertedIndexHelper {
    const engine: AhoCorasickEngine
    var isChanged: bool

    ghost function Repr(): set<object>
      reads this, engine
    { {this} + engine.Repr() }

    ghost predicate Valid()
      reads this, engine, engine.nodes.Values
    { engine.Valid() && Indexes(engine.T(), engine.none) }

    ghost function Leafs(): map<Key, nat>
      reads this, engine, engine.nodes.Values
    { LeafsOf(engine.T(), engine.none) }

    ghost function Paths(): set<Key>
      reads this, engine
    { engine.nodes.Keys }

    constructor (none: nat)
      ensures Valid() && fresh(Repr()) && fresh(engine) && engine.none == none && !isChanged
      ensures Leafs() == map[] && Paths() == {[]}
    {
      engine := new AhoCorasickEngine(none);
      isChanged := false;
    }

    method Insert(key: Key, leaf: nat) returns (done: bool)
      requires Valid() && leaf <= engine.none
      modifies Repr()
      ensures Valid() && done == (key != []) && forall o | o in Repr() :: o in old(Repr()) || fresh(o)
      ensures isChanged == (old(isChanged) || key != [])
      ensures Leafs() == if key == [] then old(Leafs()) else if leaf == engine.none then old(Leafs()) - {key}
                         else old(Leafs())[key := leaf]
      ensures Paths() == old(Paths()) + Prefixes(key)
    {
      hide Inserted, LeafsOf, Indexes, AhoCorasickEngine.Valid, Prefixes;
      engine.PathsOf();
      if key == [] {
        engine.RoutesOf([]);
        PrefixesOfNone(key);
        return false;
      }
      isChanged := true;
      IndexesInserted(engine.T(), key, leaf, engine.none);
      LeafsInserted(engine.T(), key, leaf, engine.none);
      done := engine.Insert(key, leaf);
      engine.PathsOf();
    }

    method Get(key: Key) returns (leaf: nat)
      requires Valid()
      ensures leaf == if key in Leafs() then Leafs()[key] else engine.none
      ensures key in Leafs() <==> leaf != engine.none
    {
      LookupLeaf(engine.T(), key, engine.none);
      if key == [] {
        return engine.none;
      }
      leaf := engine.Get(key);
    }

    method HasKey(key: Key) returns (has: bool)
      requires Valid()
      ensures has <==> key in Leafs()
    {
      LookupLeaf(engine.T(), key, engine.none);
      if key == [] {
        return false;
      }
      has := engine.HasKey(key);
    }

    method Delete(key: Key) returns (done: bool)
      requires Valid()
      modifies Repr()
      ensures Valid() && Repr() == old(Repr()) && done == (key != [] && key in old(Paths()))
      ensures isChanged == (old(isChanged) || key != [])
      ensures Leafs() == old(Leafs()) - {key} && Paths() == old(Paths())
    {
      hide LeafsOf, AhoCorasickEngine.Valid;
      LeafsDeleted(engine.T(), key, engine.none);
      if key == [] {
        RootHasNoLeaf(engine.T(), engine.none);
        return false;
      }
      isChanged := true;
      done := engine.Delete(key);
    }

    lemma Indexed()
      requires Valid()
      ensures Indexes(engine.T(), engine.none) && Leafs() == LeafsOf(engine.T(), engine.none)
    {
    }

    lemma PathsClosed()
      requires Valid()
      ensures PrefixClosed(Paths())
    {
      engine.PathsOf();
    }

    lemma NoEmptyKey()
      requires Valid()
      ensures [] !in Leafs()
    {
    }

    method FindMaxSubKey(key: Key) returns (n: nat)
      requires Valid()
      ensures IsMaxSubKey(Paths(), key, n)
    {
      engine.PathsOf();
      engine.RoutesOf([]);
      if key == [] {
        return 0;
      }
      n := engine.FindMaxSubKey(key);
    }

    /** The serialized form of the index. Node ids must fit in 8 bytes. */
    method Serialize(version: Version) returns (buffer: seq<byte>, ghost img: Image)
      requires Valid() && engine.none == NO_ID && |Paths()| < NO_ID
      ensures Serializes(buffer, engine.T(), version)
      ensures IsImage(img) && buffer == ImageBytes(img) && img.version == version
      ensures img.trie == engine.T() && |img.paths| == |Paths()|
      ensures |buffer| == SerializedLength(|Leafs()|, |Paths()|)
    {
      hide IsImage, ImageBytes, AhoCorasickEngine.Valid, LeafsOf;
      engine.PathsOf();
      var serializer := new AhoCorasickSerializationHelper(version);
      buffer, img := serializer.Serialize(engine);
      EveryNodeOnce(img, []);
      ImageLength(img);
      LeafsCounted(img);
    }

    /** A new index rebuilt from a serialized one. */
    static method Deserialize(buffer: seq<byte>, version: Version, ghost img: Image)
      returns (r: Result<InvertedIndexHelper>)
      ensures Begins(img, buffer) && version.Number() < img.version.Number() ==> r.Err?
      ensures Begins(img, buffer) && img.version.Number() <= version.Number() ==> (r.Ok? <==> buffer == ImageBytes(img))
      ensures r.Ok? ==> fresh(r.value) && fresh(r.value.engine) && r.value.engine.none == NO_ID && !r.value.isChanged
      ensures Begins(img, buffer) && r.Ok? ==>
                r.value.Valid() && fresh(r.value.Repr()) && r.value.engine.T() == img.trie[[] := NO_ID]
    {
      hide IsImage, ImageBytes, AhoCorasickEngine.Valid;
      var serializer := new AhoCorasickSerializationHelper(version);
      var index := new InvertedIndexHelper(NO_ID);
      var done := serializer.Deserialize(buffer, index.engine, img);
      if done.Err? {
        return Err(done.error);
      }
      index.isChanged := false;
      if Begins(img, buffer) {
        ImageIndexes(img);
      }
      return Ok(index);
    }
  }

  /** There are as many leaf records as keys with a leaf. */
  lemma LeafsCounted(img: Image)
    requires IsImage(img)
    ensures LeafCount(img) == |LeafsOf(img.trie, NO_ID)|
  {
    var leafs := LeafsOf(img.trie, NO_ID);
    ListedOnce(img);
    hide BreadthFirst, LeafKeys;
    LeafKeysCounted(img.trie, img.paths);
    forall p
      ensures p in LeafKeys(img.trie, img.paths) <==> p in leafs.Keys
    {
      LeafKeysAre(img.trie, img.paths, p);
    }
    assert LeafKeys(img.trie, img.paths) == leafs.Keys;
  }

  lemma ListedOnce(img: Image)
    requires IsImage(img)
    ensures forall i, j | 0 <= i < j < |img.paths| :: img.paths[i] != img.paths[j]
  {
  }

  /** Those of the listed paths that have a leaf. */
  ghost function LeafKeys(trie: Trie, paths: seq<Key>): set<Key>
    requires AllIn(trie, paths)
  {
    if paths == [] then {}
    else
      var last := |paths| - 1;
      LeafKeys(trie, paths[..last]) + if trie[paths[last]] != NO_ID then {paths[last]} else {}
  }

  lemma {:induction false} LeafKeysAre(trie: Trie, paths: seq<Key>, p: Key)
    requires AllIn(trie, paths)
    ensures p in LeafKeys(trie, paths) <==> p in paths && trie[p] != NO_ID
  {
    if paths != [] {
      var last := |paths| - 1;
      LeafKeysAre(trie, paths[..last], p);
      assert paths == paths[..last] + [paths[last]];
    }
  }

  lemma {:induction false} LeafKeysCounted(trie: Trie, paths: seq<Key>)
    requires AllIn(trie, paths) && forall i, j | 0 <= i < j < |paths| :: paths[i] != paths[j]
    ensures |LeafIds(trie, paths)| == |LeafKeys(trie, paths)|
  {
    if paths != [] {
      var last := |paths| - 1;
      LeafKeysCounted(trie, paths[..last]);
      LeafKeysAre(trie, paths[..last], paths[last]);
    }
  }

  lemma RootHasNoLeaf(t: Trie, none: nat)
    requires Indexes(t, none)
    ensures LeafsOf(t, none) - {[]} == LeafsOf(t, none)
  {
  }

  lemma ImageIndexes(img: Image)
    requires IsImage(img)
    ensures Indexes(img.trie[[] := NO_ID], NO_ID)
  {
  }
}
