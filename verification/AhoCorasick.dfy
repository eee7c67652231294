/** The index engine: a trie of heap nodes, one for every prefix of every key ever inserted. */
module AhoCorasick {
  import opened Bytes

  type Key = seq<byte>

  // ------------------------------------------------------------ the trie as a value

  /** The leaf value of every node, by the path from the root; `none` marks a node without a leaf. */
  type Trie = map<Key, nat>

  ghost predicate IsPrefix(p: Key, key: Key) {
    |p| <= |key| && p == key[..|p|]
  }

  /** A trie has a root, and every node but the root has its parent. */
  ghost predicate PrefixClosed(keys: set<Key>) {
    && [] in keys
    && forall p {:trigger Parent(p)} | p in keys && p != [] :: Parent(p) in keys
  }

  function Parent(p: Key): Key
    requires p != []
  { p[..|p| - 1] }

  function Last(p: Key): byte
    requires p != []
  { p[|p| - 1] }

  function Child(p: Key, c: byte): Key { p + [c] }

  ghost function Prefixes(key: Key): set<Key> {
    set i: nat | i <= |key| :: key[..i]
  }

  ghost function Inserted(t: Trie, key: Key, leaf: nat, none: nat): Trie {
    map p | p in t.Keys + Prefixes(key) :: if p == key then leaf else if p in t then t[p] else none
  }

  ghost function Deleted(t: Trie, key: Key, none: nat): Trie {
    if key in t then t[key := none] else t
  }

  /** `t'` is `t` with all prefixes of `key` added as paths without leaves. */
  ghost predicate Extended(t: Trie, t': Trie, key: Key, none: nat) {
    && t'.Keys == t.Keys + Prefixes(key)
    && forall p | p in t' :: t'[p] == if p in t then t[p] else none
  }

  function Lookup(t: Trie, key: Key, none: nat): nat {
    if key in t then t[key] else none
  }

  /** The length of the longest prefix of `key` that is a path. */
  ghost predicate IsMaxSubKey(keys: set<Key>, key: Key, n: nat) {
    && n <= |key| && key[..n] in keys
    && forall m | n < m <= |key| :: key[..m] !in keys
  }

  // --------------------------------------------------------------- the trie as nodes

  class Node {
    var routes: map<byte, Node>
    var leaf: nat

    constructor (leaf: nat)
      ensures routes == map[] && this.leaf == leaf
    {
      routes := map[];
      this.leaf := leaf;
    }
  }

  class AhoCorasickEngine {
    var trie: Node
    /** The leaf value that stands for "no leaf". */
    const none: nat
    /** The node at the end of every path. */
    ghost var nodes: map<Key, Node>

    ghost function Repr(): set<object>
      reads this
    { {this} + nodes.Values }

    /** The routes out of the node at `p` lead to the nodes one step further. */
    ghost predicate RoutesAt(p: Key)
      requires p in nodes
      reads this, nodes.Values
    {
      && (forall c | c in nodes[p].routes :: Child(p, c) in nodes && nodes[p].routes[c] == nodes[Child(p, c)])
      && (forall c: byte {:trigger Child(p, c)} | Child(p, c) in nodes :: c in nodes[p].routes)
    }

    ghost predicate Valid()
      reads this, nodes.Values
    {
      && PrefixClosed(nodes.Keys) && nodes[[]] == trie
      && (forall p {:trigger RoutesAt(p)} | p in nodes :: RoutesAt(p))
      && (forall p, q | p in nodes && q in nodes && p != q :: nodes[p] != nodes[q])
    }

    ghost function T(): Trie
      reads this, nodes.Values
    {
      map p | p in nodes :: nodes[p].leaf
    }

    lemma RoutesOf(p: Key)
      requires Valid()
      ensures [] in nodes && nodes[[]] == trie
      ensures p in nodes ==> forall c: byte ::
                (c in nodes[p].routes <==> Child(p, c) in nodes)
                && (c in nodes[p].routes ==> nodes[p].routes[c] == nodes[Child(p, c)])
    {
      if p in nodes {
        assert RoutesAt(p);
      }
    }

    lemma PathsOf()
      requires Valid()
      ensures T().Keys == nodes.Keys && PrefixClosed(nodes.Keys)
    {
      assert T().Keys == nodes.Keys;
    }

    constructor (none: nat)
      ensures Valid() && fresh(Repr()) && fresh(trie) && this.none == none
      ensures nodes == map[[] := trie] && T() == map[[] := none]
    {
      this.none := none;
      var root := new Node(none);
      trie := root;
      nodes := map[[] := root];
    }

    /** Takes over the nodes of another engine. */
    method Swap(other: AhoCorasickEngine)
      modifies this`trie, this`nodes
      ensures trie == other.trie && nodes == other.nodes
      ensures other.Valid() && other.none == none ==> Valid() && T() == other.T()
    {
      trie := other.trie;
      nodes := other.nodes;
      if other.Valid() {
        forall p | p in nodes
          ensures RoutesAt(p)
        {
          assert other.RoutesAt(p);
        }
      }
    }

    method GetNextNode(c: byte, current: Node) returns (next: Node?)
      ensures next == if c in current.routes then current.routes[c] else null
    {
      if c !in current.routes {
        return null;
      }
      return current.routes[c];
    }

    method GetPathNode(key: Key) returns (node: Node?)
      requires Valid()
      ensures node == null <==> key !in nodes
      ensures node != null ==> node == nodes[key]
    {
      var current := trie;
      for i := 0 to |key|
        invariant key[..i] in nodes && current == nodes[key[..i]]
      {
        assert RoutesAt(key[..i]) && Child(key[..i], key[i]) == key[..i + 1];
        var next := GetNextNode(key[i], current);
        if next == null {
          NotBeyond(nodes.Keys, key, i + 1, |key|);
          assert key[..|key|] == key;
          return null;
        }
        current := next;
      }
      assert key[..|key|] == key;
      return current;
    }

    method Get(key: Key) returns (leaf: nat)
      requires Valid()
      ensures leaf == Lookup(T(), key, none)
    {
      var node := GetPathNode(key);
      return if node == null then none else node.leaf;
    }

    method HasKey(key: Key) returns (has: bool)
      requires Valid()
      ensures has <==> Lookup(T(), key, none) != none
    {
      var node := GetPathNode(key);
      return if node == null then false else node.leaf != none;
    }

    method Delete(key: Key) returns (done: bool)
      requires Valid()
      modifies Repr()
      ensures Valid() && nodes == old(nodes)
      ensures T() == Deleted(old(T()), key, none) && (done <==> key in old(T()))
    {
      var node := GetPathNode(key);
      if node == null {
        return false;
      }
      SetLeaf(key, node, none);
      return true;
    }

    /** Is `node` the node at `p` of an intact trie? */
    ghost predicate StandsAt(p: Key, node: Node)
      reads this, nodes.Values
    { Valid() && p in nodes && node == nodes[p] }

    /** Hangs a new node without a leaf below a node, in place of any that was there. */
    method AddRoute(ghost p: Key, c: byte, current: Node) returns (next: Node)
      modifies this`nodes, current`routes
      ensures fresh(next) && nodes == old(nodes)[Child(p, c) := next]
      ensures old(StandsAt(p, current) && Child(p, c) !in nodes) ==>
                Valid() && T() == old(T())[Child(p, c) := none]
    {
      hide PrefixClosed, Child, Parent, Last;
      ghost var before, t := nodes, T();
      next := new Node(none);
      current.routes := current.routes[c := next];
      nodes := nodes[Child(p, c) := next];
      if old(StandsAt(p, current) && Child(p, c) !in nodes) {
        assert T() == t[Child(p, c) := none] by {
          hide RoutesAt;
        }
        ClosedByChild(before.Keys, p, c);
        assert nodes.Keys == before.Keys + {Child(p, c)};
        forall q | q in nodes
          ensures RoutesAt(q)
        {
          if q in before {
            assert old(RoutesAt(q));
            OnlyChild(q, p, c);
          } else {
            NoGrandchild(before.Keys, p, c);
          }
        }
      }
    }

    method SetLeaf(ghost p: Key, node: Node, leaf: nat)
      modifies node`leaf
      ensures old(StandsAt(p, node)) ==> Valid() && T() == old(T())[p := leaf]
    {
      node.leaf := leaf;
      if old(StandsAt(p, node)) {
        forall q | q in nodes
          ensures RoutesAt(q)
        {
          assert old(RoutesAt(q));
        }
      }
    }

    method Insert(key: Key, leaf: nat) returns (done: bool)
      requires Valid()
      modifies Repr()
      ensures Valid() && fresh(Repr() - old(Repr())) && done
      ensures T() == Inserted(old(T()), key, leaf, none)
    {
      hide Valid, Extended, Inserted, PrefixClosed, RoutesAt, Prefixes, IsPrefix;
      RoutesOf([]);
      var current := trie;
      assert key[..0] == [];
      ExtendedStarts(T(), none);
      for i := 0 to |key|
        invariant Valid() && fresh(Repr() - old(Repr()))
        invariant key[..i] in nodes && current == nodes[key[..i]]
        invariant Extended(old(T()), T(), key[..i], none)
      {
        ghost var p, t := key[..i], T();
        assert Child(p, key[i]) == key[..i + 1];
        RoutesOf(p);
        var next := GetNextNode(key[i], current);
        if next == null {
          next := AddRoute(p, key[i], current);
        }
        ExtendedNext(old(T()), t, key, i, none);
        current := next;
      }
      assert key[..|key|] == key;
      ExtendedEnds(old(T()), T(), key, leaf, none);
      SetLeaf(key, current, leaf);
      return true;
    }

    method FindMaxSubKey(key: Key) returns (n: nat)
      requires Valid()
      ensures IsMaxSubKey(T().Keys, key, n)
    {
      var current := trie;
      n := 0;
      for i := 0 to |key|
        invariant n == i && key[..i] in nodes && current == nodes[key[..i]]
      {
        assert RoutesAt(key[..i]) && Child(key[..i], key[i]) == key[..i + 1];
        var next := GetNextNode(key[i], current);
        if next == null {
          forall m | i < m <= |key|
            ensures key[..m] !in nodes
          {
            NotBeyond(nodes.Keys, key, i + 1, m);
          }
          return;
        }
        current := next;
        n := n + 1;
      }
    }
  }

  lemma ChildInjective(p: Key, c: byte, q: Key, d: byte)
    ensures Child(p, c) == Child(q, d) <==> p == q && c == d
  {
    assert Parent(Child(p, c)) == p && Last(Child(p, c)) == c;
    assert Parent(Child(q, d)) == q && Last(Child(q, d)) == d;
  }

  lemma OnlyChild(q: Key, p: Key, c: byte)
    ensures forall d: byte {:trigger Child(q, d)} :: Child(q, d) == Child(p, c) <==> q == p && d == c
  {
    forall d: byte
      ensures Child(q, d) == Child(p, c) <==> q == p && d == c
    {
      ChildInjective(q, d, p, c);
    }
  }

  lemma ClosedByChild(keys: set<Key>, p: Key, c: byte)
    requires PrefixClosed(keys) && p in keys
    ensures PrefixClosed(keys + {Child(p, c)}) && [] in keys && Child(p, c) != []
  {
    assert Parent(Child(p, c)) == p;
  }

  /** Below a path that is missing there are no paths. */
  lemma NoGrandchild(keys: set<Key>, p: Key, c: byte)
    requires PrefixClosed(keys) && Child(p, c) !in keys
    ensures forall d: byte {:trigger Child(Child(p, c), d)} ::
              Child(Child(p, c), d) !in keys && Child(Child(p, c), d) != Child(p, c)
  {
    forall d: byte
      ensures Child(Child(p, c), d) !in keys && Child(Child(p, c), d) != Child(p, c)
    {
      assert Parent(Child(Child(p, c), d)) == Child(p, c);
    }
  }

  lemma PrefixesOfNone(key: Key)
    ensures key[..0] == [] && Prefixes(key[..0]) == {[]}
  {
    var none: Key := [];
    var a := Prefixes(none);
    forall p: Key
      ensures p in a <==> p in {none}
    {
      PrefixesAre(none, p);
    }
    assert a == {none};
  }

  lemma PrefixesOfNext(key: Key, i: nat)
    requires i < |key|
    ensures Prefixes(key[..i + 1]) == Prefixes(key[..i]) + {key[..i + 1]}
  {
    var a, b := Prefixes(key[..i + 1]), Prefixes(key[..i]) + {key[..i + 1]};
    forall p: Key
      ensures p in a <==> p in b
    {
      PrefixesAre(key[..i + 1], p);
      PrefixesAre(key[..i], p);
      PrefixOfNext(key, i, p);
    }
    assert a == b;
  }

  lemma ExtendedStarts(t: Trie, none: nat)
    requires [] in t
    ensures Extended(t, t, [], none)
  {
    PrefixesOfNone([]);
    var root: Key := [];
    assert root[..0] == [];
  }

  lemma ExtendedNext(t0: Trie, t: Trie, key: Key, i: nat, none: nat)
    requires i < |key| && Extended(t0, t, key[..i], none)
    ensures Extended(t0, if key[..i + 1] in t then t else t[key[..i + 1] := none], key[..i + 1], none)
  {
    PrefixesOfNext(key, i);
  }

  lemma ExtendedEnds(t0: Trie, t: Trie, key: Key, leaf: nat, none: nat)
    requires Extended(t0, t, key, none)
    ensures key in t && t[key := leaf] == Inserted(t0, key, leaf, none)
  {
    PrefixesAre(key, key);
    var r := Inserted(t0, key, leaf, none);
    assert t[key := leaf].Keys == r.Keys;
  }

  lemma PrefixOfNext(key: Key, i: nat, p: Key)
    requires i < |key|
    ensures IsPrefix(p, key[..i + 1]) <==> IsPrefix(p, key[..i]) || p == key[..i + 1]
  {
    if |p| <= i {
      assert key[..i + 1][..|p|] == key[..|p|] == key[..i][..|p|];
    } else if |p| == i + 1 {
      assert key[..i + 1][..|p|] == key[..i + 1];
    }
  }

  lemma PrefixesAre(key: Key, p: Key)
    ensures p in Prefixes(key) <==> IsPrefix(p, key)
  {
    if IsPrefix(p, key) {
      assert key[..|p|] in Prefixes(key);
    }
  }

  /** Behind a path that is missing there are no paths. */
  lemma {:induction false} NotBeyond(keys: set<Key>, key: Key, i: nat, m: nat)
    requires PrefixClosed(keys) && i <= m <= |key| && key[..i] !in keys
    ensures key[..m] !in keys
    decreases m
  {
    if i < m {
      assert Parent(key[..m]) == key[..m - 1];
      NotBeyond(keys, key, i, m - 1);
    }
  }

  // ------------------------------------------------------------------- over whole runs

  datatype Op = OpInsert(key: Key, leaf: nat) | OpDelete(key: Key)

  ghost function Step(t: Trie, op: Op, none: nat): Trie {
    match op
    case OpInsert(key, leaf) => Inserted(t, key, leaf, none)
    case OpDelete(key) => Deleted(t, key, none)
  }

  /** The trie after a run that starts with a new engine. */
  ghost function RunTrie(ops: seq<Op>, none: nat): Trie {
    if ops == [] then map[[] := none] else Step(RunTrie(ops[..|ops| - 1], none), ops[|ops| - 1], none)
  }

  /** The same run on a plain finite map: inserting the value that stands for "no leaf" removes the key. */
  ghost function RunMap(ops: seq<Op>, none: nat): map<Key, nat> {
    if ops == [] then map[]
    else
      var m := RunMap(ops[..|ops| - 1], none);
      match ops[|ops| - 1]
      case OpInsert(key, leaf) => if leaf == none then m - {key} else m[key := leaf]
      case OpDelete(key) => m - {key}
  }

  /** Is `p` a prefix of a key inserted in the run? */
  ghost predicate PrefixOfInserted(ops: seq<Op>, p: Key) {
    exists i | 0 <= i < |ops| :: ops[i].OpInsert? && IsPrefix(p, ops[i].key)
  }

  /** After any run, looking a key up in the trie gives what the plain map holds. */
  lemma {:induction false} TrieRefinesMap(ops: seq<Op>, none: nat, key: Key)
    ensures Lookup(RunTrie(ops, none), key, none)
            == if key in RunMap(ops, none) then RunMap(ops, none)[key] else none
    ensures key in RunMap(ops, none) ==> RunMap(ops, none)[key] != none
  {
    if ops != [] {
      var op := ops[|ops| - 1];
      TrieRefinesMap(ops[..|ops| - 1], none, key);
      PrefixesAre(op.key, op.key);
    }
  }

  /** After any run, the paths are the root and the prefixes of all keys ever inserted, deleted or not. */
  lemma {:induction false} PathsArePrefixes(ops: seq<Op>, none: nat, p: Key)
    ensures p in RunTrie(ops, none) <==> p == [] || PrefixOfInserted(ops, p)
  {
    if ops != [] {
      var before, op := ops[..|ops| - 1], ops[|ops| - 1];
      PathsArePrefixes(before, none, p);
      PrefixesAre(op.key, p);
      if PrefixOfInserted(before, p) {
        var i :| 0 <= i < |before| && before[i].OpInsert? && IsPrefix(p, before[i].key);
        assert ops[i] == before[i];
      }
      if PrefixOfInserted(ops, p) {
        var i :| 0 <= i < |ops| && ops[i].OpInsert? && IsPrefix(p, ops[i].key);
        assert i < |before| ==> before[i] == ops[i];
      }
    }
  }

  /**
   * A run of a new engine. Its trie is the one of the run: lookups agree with the plain map, and the paths are the root
   * and the prefixes of all keys inserted.
   */
  method Execute(ops: seq<Op>, none: nat) returns (engine: AhoCorasickEngine)
    ensures engine.Valid() && fresh(engine.Repr()) && engine.none == none && engine.T() == RunTrie(ops, none)
    ensures forall key :: Lookup(engine.T(), key, none)
                          == if key in RunMap(ops, none) then RunMap(ops, none)[key] else none
    ensures forall p :: p in engine.nodes <==> p == [] || PrefixOfInserted(ops, p)
  {
    hide AhoCorasickEngine.Valid, Inserted, Deleted, Lookup, PrefixOfInserted;
    engine := new AhoCorasickEngine(none);
    for i := 0 to |ops|
      invariant engine.Valid() && fresh(engine.Repr()) && engine.none == none && engine.T() == RunTrie(ops[..i], none)
    {
      assert ops[..i + 1][..i] == ops[..i];
      match ops[i]
      case OpInsert(key, leaf) =>
        var _ := engine.Insert(key, leaf);
      case OpDelete(key) =>
        var _ := engine.Delete(key);
    }
    assert ops[..|ops|] == ops;
    forall key
      ensures Lookup(engine.T(), key, none) == if key in RunMap(ops, none) then RunMap(ops, none)[key] else none
      ensures key in engine.nodes <==> key == [] || PrefixOfInserted(ops, key)
    {
      TrieRefinesMap(ops, none, key);
      PathsArePrefixes(ops, none, key);
      engine.PathsOf();
    }
  }

  /** In a prefix-closed set of paths the longest prefix decides about all of them. */
  lemma MaxSubKeyDecides(keys: set<Key>, key: Key, n: nat)
    requires PrefixClosed(keys) && IsMaxSubKey(keys, key, n)
    ensures forall m | 0 <= m <= |key| :: key[..m] in keys <==> m <= n
  {
    forall m | 0 <= m <= n
      ensures key[..m] in keys
    {
      if key[..m] !in keys {
        NotBeyond(keys, key, m, n);
      }
    }
  }
}
