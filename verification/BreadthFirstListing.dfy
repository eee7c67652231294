/** Listing the paths of a trie in breadth-first order, one child at a time. */
module BreadthFirstListing {
  import opened Bytes
  import opened AhoCorasick
  import opened IndexFormat

  /** The children of the paths listed before `done` are listed; no path has a parent from `limit` on. */
  ghost predicate Listed(keys: set<Key>, paths: seq<Key>, parents: seq<nat>, done: nat, limit: nat) {
    && BreadthFirst(paths, parents) && done <= |paths|
    && (forall p | p in paths :: p in keys)
    && (forall i | 0 < i < |paths| :: parents[i] < limit)
    && (done < |paths| ==> forall i | 0 <= i < |paths| :: |paths[i]| <= |paths[done]| + 1)
    && (forall i: nat, c: byte {:trigger Child(paths[i], c)} | i < done ::
          Child(paths[i], c) in keys ==> Child(paths[i], c) in paths)
  }

  lemma ListedStarts(keys: set<Key>)
    requires [] in keys
    ensures Listed(keys, [[]], [0], 0, 0)
  {
  }

  lemma ListMore(keys: set<Key>, paths: seq<Key>, parents: seq<nat>, done: nat)
    requires Listed(keys, paths, parents, done, done)
    ensures Listed(keys, paths, parents, done, done + 1)
  {
  }

  /** Different characters lead to different children. */
  lemma OnlyChildOf(p: Key, c: byte)
    ensures forall d: byte {:trigger Child(p, d)} :: Child(p, d) == Child(p, c) <==> d == c
    ensures Child(p, c) != [] && |Child(p, c)| == |p| + 1 && Last(Child(p, c)) == c
  {
    forall d: byte
      ensures Child(p, d) == Child(p, c) <==> d == c
    {
      ChildInjective(p, d, p, c);
    }
  }

  /** No child of the next path is listed before its turn comes. */
  lemma NoChildYet(keys: set<Key>, paths: seq<Key>, parents: seq<nat>, done: nat)
    requires Listed(keys, paths, parents, done, done) && done < |paths|
    ensures forall c: byte {:trigger Child(paths[done], c)} :: Child(paths[done], c) !in paths
  {
    forall c: byte
      ensures Child(paths[done], c) !in paths
    {
      assert Parent(Child(paths[done], c)) == paths[done];
    }
  }

  lemma ListChild(keys: set<Key>, paths: seq<Key>, parents: seq<nat>, done: nat, c: byte)
    requires Listed(keys, paths, parents, done, done + 1) && done < |paths|
    requires Child(paths[done], c) in keys && Child(paths[done], c) !in paths
    ensures Listed(keys, paths + [Child(paths[done], c)], parents + [done], done, done + 1)
  {
    var q := Child(paths[done], c);
    assert Parent(q) == paths[done];
    var paths', parents' := paths + [q], parents + [done];
    assert BreadthFirst(paths', parents');
  }

  lemma ListNext(keys: set<Key>, paths: seq<Key>, parents: seq<nat>, done: nat)
    requires Listed(keys, paths, parents, done, done + 1) && done < |paths|
    requires forall c: byte {:trigger Child(paths[done], c)} :: Child(paths[done], c) in keys ==> Child(paths[done], c) in paths
    ensures Listed(keys, paths, parents, done + 1, done + 1)
  {
  }

  /** When the children of all listed paths are listed, all paths of the trie are listed. */
  lemma {:induction false} AllListed(keys: set<Key>, paths: seq<Key>, parents: seq<nat>, p: Key)
    requires Listed(keys, paths, parents, |paths|, |paths|) && PrefixClosed(keys) && p in keys
    ensures p in paths
    decreases |p|
  {
    if p == [] {
      assert paths[0] == [];
    } else {
      AllListed(keys, paths, parents, Parent(p));
      var i :| 0 <= i < |paths| && paths[i] == Parent(p);
      assert Child(paths[i], Last(p)) == p;
    }
  }

  /** A listing without repetitions is no longer than the trie. */
  lemma {:induction false} NoLongerThan(keys: set<Key>, paths: seq<Key>)
    requires forall p | p in paths :: p in keys
    requires forall i, j | 0 <= i < j < |paths| :: paths[i] != paths[j]
    ensures |paths| <= |keys|
  {
    if paths != [] {
      var last := |paths| - 1;
      assert paths[last] in paths;
      forall p | p in paths[..last]
        ensures p in keys - {paths[last]}
      {
      }
      NoLongerThan(keys - {paths[last]}, paths[..last]);
    }
  }

  lemma ListedFits(keys: set<Key>, paths: seq<Key>, parents: seq<nat>, done: nat, limit: nat)
    requires Listed(keys, paths, parents, done, limit)
    ensures |paths| == |parents| <= |keys| && forall p | p in paths :: p in keys
  {
    NoLongerThan(keys, paths);
  }

  // --------------------------------------------------------------------- the two tables

  /** `nodes` and `leafs` are the tables of the first `|nodes|` listed paths. */
  ghost predicate TablesOf(trie: Trie, paths: seq<Key>, parents: seq<nat>, nodes: seq<NodeRecord>,
                           leafs: seq<LeafRecord>)
  {
    && |nodes| <= |paths| == |parents| && AllIn(trie, paths)
    && (forall i | 0 <= i < |nodes| :: nodes[i] == NodeOf(trie, paths, parents, i))
    && leafs == LeafTable(trie, paths[..|nodes|])
  }

  lemma TablesLonger(trie: Trie, paths: seq<Key>, parents: seq<nat>, paths': seq<Key>, parents': seq<nat>,
                     nodes: seq<NodeRecord>, leafs: seq<LeafRecord>)
    requires TablesOf(trie, paths, parents, nodes, leafs) && AllIn(trie, paths')
    requires paths <= paths' && parents <= parents' && |paths'| == |parents'|
    ensures TablesOf(trie, paths', parents', nodes, leafs)
  {
    forall i | 0 <= i < |nodes|
      ensures nodes[i] == NodeOf(trie, paths', parents', i)
    {
      assert paths'[..i] == paths[..i];
    }
    assert paths'[..|nodes|] == paths[..|nodes|];
  }

  lemma LeafTableNext(trie: Trie, paths: seq<Key>, n: nat)
    requires AllIn(trie, paths) && n < |paths|
    ensures var before := LeafTable(trie, paths[..n]);
            LeafTable(trie, paths[..n + 1])
            == if trie[paths[n]] != NO_ID then before + [LeafRecord(n, trie[paths[n]])] else before
    ensures |LeafTable(trie, paths[..n])| == |LeafIds(trie, paths[..n])|
  {
    assert paths[..n + 1][..n] == paths[..n];
  }

  /** One more record, and one more leaf if the node has one. */
  lemma TablesNext(trie: Trie, paths: seq<Key>, parents: seq<nat>, nodes: seq<NodeRecord>, leafs: seq<LeafRecord>)
    requires TablesOf(trie, paths, parents, nodes, leafs) && |nodes| < |paths|
    ensures var i, p := |nodes|, paths[|nodes|];
            var leafId := if trie[p] != NO_ID then |leafs| else NO_ID;
            TablesOf(trie, paths, parents,
                     nodes + [NodeRecord(i, parents[i], |p|, leafId, if p == [] then ROOT_CHAR else Last(p))],
                     if trie[p] != NO_ID then leafs + [LeafRecord(i, trie[p])] else leafs)
  {
    hide LeafTable, LeafIds;
    LeafTableNext(trie, paths, |nodes|);
  }

  lemma TablesDone(trie: Trie, paths: seq<Key>, parents: seq<nat>, nodes: seq<NodeRecord>, leafs: seq<LeafRecord>)
    requires TablesOf(trie, paths, parents, nodes, leafs) && |nodes| == |paths|
    ensures nodes == NodeTable(trie, paths, parents) && leafs == LeafTable(trie, paths)
  {
    assert paths[..|nodes|] == paths;
  }
}
