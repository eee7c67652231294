/** Volumes mounted over one another: which group a key leads to, in which order its volumes are visited. */
module Overlay {
  import opened Errors
  import opened AhoCorasick
  import opened Time
  import opened Values
  import opened VolumeHeader
  import opened EntrySteps
  import opened VolumeMap

  type Key = AhoCorasick.Key

  datatype PVMountPoint<V> = PVMountPoint(volume: V, catalog: Key, priority: int)

  /** What the overlay sees of a volume. */
  type View = map<Key, Entry>

  // --------------------------------------------------------------------- routing

  ghost predicate Mounted(catalogs: set<Key>, p: Key) {
    exists c | c in catalogs :: IsPrefix(p, c)
  }

  /** The paths of the index are the root and the prefixes of the mounted catalogs. */
  ghost predicate PathsOfMounts(paths: set<Key>, catalogs: set<Key>) {
    forall p :: p in paths <==> p == [] || Mounted(catalogs, p)
  }

  /** Does `d` agree with the key on more than the first `n` characters? */
  ghost predicate AgreesBeyond(d: Key, key: Key, n: nat) {
    n < |d| && n < |key| && d[..n + 1] == key[..n + 1]
  }

  /** The key leads to the group of catalog `c`. */
  ghost predicate ResolvesTo(catalogs: set<Key>, key: Key, c: Key) {
    c in catalogs && IsPrefix(c, key) && forall d | d in catalogs :: !AgreesBeyond(d, key, |c|)
  }

  /**
   * The search for the longest path decides about the group: a key leads to the group of a mounted catalog exactly if
   * that is the longest path the key starts with.
   */
  lemma RouteDecides(catalogs: set<Key>, paths: set<Key>, key: Key, n: nat,
                     c: Key)
    requires PathsOfMounts(paths, catalogs) && [] !in catalogs && IsMaxSubKey(paths, key, n)
    ensures ResolvesTo(catalogs, key, c) <==> c == key[..n] && c in catalogs
  {
    if ResolvesTo(catalogs, key, c) {
      assert Mounted(catalogs, key[..|c|]) by {
        assert key[..|c|] == c && IsPrefix(c, c);
      }
      assert key[..|c|] in paths;
      if |c| < n {
        LongerPath(catalogs, paths, key, n, |c|);
      }
      assert |c| == n;
    }
    forall d | d in catalogs
      ensures !AgreesBeyond(d, key, n)
    {
      AgreementIsPath(catalogs, paths, key, n, d);
    }
  }

  lemma AgreementIsPath(catalogs: set<Key>, paths: set<Key>, key: Key, n: nat,
                        d: Key)
    requires PathsOfMounts(paths, catalogs) && d in catalogs
    ensures AgreesBeyond(d, key, n) ==> n < |key| && key[..n + 1] in paths
  {
    if AgreesBeyond(d, key, n) {
      assert IsPrefix(key[..n + 1], d);
    }
  }

  /** If the key agrees with a catalog on `n` characters, no shorter catalog takes it. */
  lemma LongerPath(catalogs: set<Key>, paths: set<Key>, key: Key, n: nat, m: nat)
    requires PathsOfMounts(paths, catalogs) && m < n <= |key| && key[..n] in paths
    ensures exists d | d in catalogs :: AgreesBeyond(d, key, m)
  {
    assert key[..n] != [];
    var d :| d in catalogs && IsPrefix(key[..n], d);
    assert d[..m + 1] == d[..n][..m + 1] == key[..n][..m + 1] == key[..m + 1];
  }

  lemma LongerAgrees(c: Key, d: Key, key: Key)
    ensures IsPrefix(d, key) && |c| < |d| ==> AgreesBeyond(d, key, |c|)
  {
    if IsPrefix(d, key) && |c| < |d| {
      assert d[..|c| + 1] == key[..|d|][..|c| + 1] == key[..|c| + 1];
    }
  }

  /** A key leads to at most one group. */
  lemma ResolvesToOne(catalogs: set<Key>, key: Key, c: Key, d: Key)
    requires ResolvesTo(catalogs, key, c) && ResolvesTo(catalogs, key, d)
    ensures c == d
  {
    LongerAgrees(c, d, key);
    LongerAgrees(d, c, key);
  }

  lemma BeyondIsLonger(c: Key, d: Key, key: Key)
    ensures IsPrefix(c, key) && AgreesBeyond(d, key, |c|) ==> IsPrefix(c, d) && c != d
  {
    if IsPrefix(c, key) && AgreesBeyond(d, key, |c|) {
      assert d[..|c|] == d[..|c| + 1][..|c|] == key[..|c| + 1][..|c|] == key[..|c|];
    }
  }

  /** If no catalog is a prefix of another one, a key leads to the one catalog it starts with. */
  lemma PrefixFreeRoutes(catalogs: set<Key>, key: Key, c: Key)
    requires forall a, b | a in catalogs && b in catalogs && a != b :: !IsPrefix(a, b)
    ensures ResolvesTo(catalogs, key, c) <==> c in catalogs && IsPrefix(c, key)
  {
    forall d | d in catalogs
      ensures c in catalogs && IsPrefix(c, key) ==> !AgreesBeyond(d, key, |c|)
    {
      BeyondIsLonger(c, d, key);
    }
  }

  lemma MountedAdded(paths: set<Key>, catalogs: set<Key>, c: Key)
    requires PathsOfMounts(paths, catalogs)
    ensures PathsOfMounts(paths + Prefixes(c), catalogs + {c})
  {
    var paths', catalogs' := paths + Prefixes(c), catalogs + {c};
    forall p
      ensures p in paths' <==> p == [] || Mounted(catalogs', p)
    {
      PrefixesAre(c, p);
      if p in paths && p != [] {
        var d :| d in catalogs && IsPrefix(p, d);
        assert d in catalogs';
      }
      if p in Prefixes(c) {
        assert c in catalogs';
      }
      if Mounted(catalogs', p) {
        var d :| d in catalogs' && IsPrefix(p, d);
        assert d != c ==> Mounted(catalogs, p);
      }
    }
  }

  // ------------------------------------------------------------- the order of a group

  /** Priorities are compared after conversion to unsigned numbers. */
  function Rank(priority: int): nat { Unsigned32(priority) }

  predicate Sorted<V(==)>(group: seq<PVMountPoint<V>>) {
    forall i, j | 0 <= i < j < |group| :: Rank(group[i].priority) <= Rank(group[j].priority)
  }

  /** The first position whose priority is not below the given one. */
  ghost predicate IsLowerBound<V>(group: seq<PVMountPoint<V>>, priority: int, at: nat) {
    && at <= |group|
    && (forall i | 0 <= i < at :: Rank(group[i].priority) < Rank(priority))
    && (forall i | at <= i < |group| :: Rank(priority) <= Rank(group[i].priority))
  }

  function InsertAt<V>(group: seq<PVMountPoint<V>>, at: nat, p: PVMountPoint<V>): seq<PVMountPoint<V>>
    requires at <= |group|
  { group[..at] + [p] + group[at..] }

  function LowerBound<V>(group: seq<PVMountPoint<V>>, priority: int): (at: nat)
    ensures at <= |group|
  {
    if group == [] || Rank(priority) <= Rank(group[0].priority) then 0 else 1 + LowerBound(group[1..], priority)
  }

  lemma {:induction false} LowerBoundIs<V>(group: seq<PVMountPoint<V>>, priority: int, at: nat)
    requires IsLowerBound(group, priority, at)
    ensures LowerBound(group, priority) == at
  {
    if group != [] && at > 0 {
      LowerBoundIs(group[1..], priority, at - 1);
    }
  }

  lemma {:induction false} LowerBoundOfSorted<V>(group: seq<PVMountPoint<V>>, priority: int)
    requires Sorted(group)
    ensures IsLowerBound(group, priority, LowerBound(group, priority))
  {
    if group != [] && Rank(group[0].priority) < Rank(priority) {
      LowerBoundOfSorted(group[1..], priority);
      var at := LowerBound(group[1..], priority);
      assert forall i | 0 < i < |group| :: group[i] == group[1..][i - 1];
    }
  }

  /** The group that a list of mounts builds, the oldest mount first. */
  function GroupOf<V>(mounts: seq<PVMountPoint<V>>): seq<PVMountPoint<V>> {
    if mounts == [] then []
    else
      var before, p := GroupOf(mounts[..|mounts| - 1]), mounts[|mounts| - 1];
      InsertAt(before, LowerBound(before, p.priority), p)
  }

  lemma GroupGrows<V>(mounts: seq<PVMountPoint<V>>, p: PVMountPoint<V>, at: nat)
    requires IsLowerBound(GroupOf(mounts), p.priority, at)
    ensures GroupOf(mounts + [p]) == InsertAt(GroupOf(mounts), at, p)
  {
    assert (mounts + [p])[..|mounts|] == mounts;
    LowerBoundIs(GroupOf(mounts), p.priority, at);
  }

  lemma {:induction false} GroupMembers<V>(mounts: seq<PVMountPoint<V>>, p: PVMountPoint<V>)
    ensures p in GroupOf(mounts) <==> p in mounts
  {
    if mounts != [] {
      var last := |mounts| - 1;
      var before := GroupOf(mounts[..last]);
      GroupMembers(mounts[..last], p);
      assert mounts == mounts[..last] + [mounts[last]];
      InsertMembers(before, LowerBound(before, mounts[last].priority), mounts[last], p);
    }
  }

  lemma InsertMembers<V>(group: seq<PVMountPoint<V>>, at: nat, q: PVMountPoint<V>, p: PVMountPoint<V>)
    requires at <= |group|
    ensures p in InsertAt(group, at, q) <==> p == q || p in group
  {
    assert group == group[..at] + group[at..];
  }

  /** `order[i]` is the mount that stands at position `i` of the group. */
  ghost predicate Arranged<V>(group: seq<PVMountPoint<V>>, mounts: seq<PVMountPoint<V>>, order: seq<nat>) {
    && |order| == |group| == |mounts|
    && (forall i | 0 <= i < |order| :: order[i] < |mounts| && group[i] == mounts[order[i]])
    && (forall i, j | 0 <= i < j < |order| :: order[i] != order[j])
  }

  /** Seen from the end, priorities decrease, and mounts of equal priority come in mount order. */
  ghost predicate VisitOrder<V>(mounts: seq<PVMountPoint<V>>, order: seq<nat>)
    requires forall i | 0 <= i < |order| :: order[i] < |mounts|
  {
    forall i, j | 0 <= i < j < |order| ::
      var a, b := Rank(mounts[order[i]].priority), Rank(mounts[order[j]].priority);
      a < b || (a == b && order[j] < order[i])
  }

  /** Every group contains its mounts, each once, in the order in which they are to be visited. */
  lemma {:induction false} GroupIsOrdered<V>(mounts: seq<PVMountPoint<V>>) returns (order: seq<nat>)
    ensures Sorted(GroupOf(mounts))
    ensures Arranged(GroupOf(mounts), mounts, order) && VisitOrder(mounts, order)
  {
    if mounts == [] {
      order := [];
    } else {
      var last := |mounts| - 1;
      var before := GroupOf(mounts[..last]);
      var at := LowerBound(before, mounts[last].priority);
      var earlier := GroupIsOrdered(mounts[..last]);
      LowerBoundOfSorted(before, mounts[last].priority);
      InsertIsSorted(before, mounts[last], at);
      order := earlier[..at] + [last] + earlier[at..];
      InsertKeepsOrder(before, mounts, earlier, at);
    }
  }

  lemma InsertKeepsOrder<V>(before: seq<PVMountPoint<V>>, mounts: seq<PVMountPoint<V>>, earlier: seq<nat>, at: nat)
    requires mounts != [] && Arranged(before, mounts[..|mounts| - 1], earlier)
    requires VisitOrder(mounts[..|mounts| - 1], earlier)
    requires IsLowerBound(before, mounts[|mounts| - 1].priority, at)
    ensures var last := |mounts| - 1;
            var order := earlier[..at] + [last] + earlier[at..];
            Arranged(InsertAt(before, at, mounts[last]), mounts, order) && VisitOrder(mounts, order)
  {
    hide Rank, VisitOrder;
    InsertArranged(before, mounts, earlier, at);
    InsertVisited(before, mounts, earlier, at);
  }

  lemma InsertArranged<V>(before: seq<PVMountPoint<V>>, mounts: seq<PVMountPoint<V>>, earlier: seq<nat>, at: nat)
    requires mounts != [] && Arranged(before, mounts[..|mounts| - 1], earlier) && at <= |before|
    ensures var last := |mounts| - 1;
            var order := earlier[..at] + [last] + earlier[at..];
            Arranged(InsertAt(before, at, mounts[last]), mounts, order)
  {
    var last := |mounts| - 1;
    var order, group := earlier[..at] + [last] + earlier[at..], InsertAt(before, at, mounts[last]);
    forall i | 0 <= i < |order|
      ensures order[i] < |mounts| && group[i] == mounts[order[i]]
    {
      var k := if i < at then i else i - 1;
      if i != at {
        assert order[i] == earlier[k] && group[i] == before[k];
      }
    }
    forall i, j | 0 <= i < j < |order|
      ensures order[i] != order[j]
    {
      var k, l := if i < at then i else i - 1, if j < at then j else j - 1;
      if i != at && j != at {
        assert earlier[k] != earlier[l];
      }
    }
  }

  lemma InsertVisited<V>(before: seq<PVMountPoint<V>>, mounts: seq<PVMountPoint<V>>, earlier: seq<nat>, at: nat)
    requires mounts != [] && Arranged(before, mounts[..|mounts| - 1], earlier)
    requires VisitOrder(mounts[..|mounts| - 1], earlier)
    requires IsLowerBound(before, mounts[|mounts| - 1].priority, at)
    ensures var order := earlier[..at] + [|mounts| - 1] + earlier[at..];
            (forall i | 0 <= i < |order| :: order[i] < |mounts|) && VisitOrder(mounts, order)
  {
    hide Rank;
    var last := |mounts| - 1;
    var order := earlier[..at] + [last] + earlier[at..];
    forall i, j | 0 <= i < j < |order|
      ensures order[i] <= last && order[j] <= last
      ensures var a, b := Rank(mounts[order[i]].priority), Rank(mounts[order[j]].priority);
              a < b || (a == b && order[j] < order[i])
    {
      var k, l := if i < at then i else i - 1, if j < at then j else j - 1;
      if i != at {
        assert order[i] == earlier[k] && before[k] == mounts[earlier[k]];
      }
      if j != at {
        assert order[j] == earlier[l] && before[l] == mounts[earlier[l]];
      }
    }
  }

  lemma InsertIsSorted<V>(group: seq<PVMountPoint<V>>, p: PVMountPoint<V>, at: nat)
    requires Sorted(group) && IsLowerBound(group, p.priority, at)
    ensures Sorted(InsertAt(group, at, p))
  {
  }

  /** Two priorities are compared as numbers exactly if both are negative or neither is. */
  lemma RankIsPriority(a: int, b: int)
    requires -I31 <= a < I31 && -I31 <= b < I31
    ensures (Rank(a) <= Rank(b) <==> a <= b) <==> (a < 0 <==> b < 0)
    ensures a < 0 <= b ==> Rank(b) < Rank(a)
  {
  }

  ghost predicate InOrder<V>(group: seq<PVMountPoint<V>>) {
    forall i, j | 0 <= i < j < |group| :: group[i].priority <= group[j].priority
  }

  /** Are the priorities all negative, or all not? */
  ghost predicate OneSign<V>(mounts: seq<PVMountPoint<V>>) {
    forall p, q | p in mounts && q in mounts :: p.priority < 0 <==> q.priority < 0
  }

  /**
   * A group is visited by decreasing priorities exactly if its mounts have priorities of one sign. Otherwise those with
   * negative priorities come before all others.
   */
  lemma GroupInOrderExactly<V>(mounts: seq<PVMountPoint<V>>)
    requires forall p | p in mounts :: -I31 <= p.priority < I31
    ensures InOrder(GroupOf(mounts)) <==> OneSign(mounts)
    ensures forall i, j | 0 <= i < |GroupOf(mounts)| && 0 <= j < |GroupOf(mounts)|
                          && GroupOf(mounts)[i].priority >= 0 > GroupOf(mounts)[j].priority :: i < j
  {
    var group := GroupOf(mounts);
    var order := GroupIsOrdered(mounts);
    hide GroupOf, Sorted, InOrder;
    forall p
      ensures p in group <==> p in mounts
    {
      GroupMembers(mounts, p);
    }
    SortedInOrderExactly(group);
  }

  lemma SortedInOrderExactly<V>(group: seq<PVMountPoint<V>>)
    requires Sorted(group) && forall p | p in group :: -I31 <= p.priority < I31
    ensures InOrder(group) <==> OneSign(group)
    ensures forall i, j | 0 <= i < |group| && 0 <= j < |group| && group[i].priority >= 0 > group[j].priority :: i < j
  {
    hide Rank;
    forall i, j | 0 <= i < |group| && 0 <= j < |group|
      ensures group[i].priority >= 0 > group[j].priority ==> i < j
      ensures i < j && (group[i].priority < 0 <==> group[j].priority < 0) ==> group[i].priority <= group[j].priority
    {
      assert group[i] in group && group[j] in group;
      RankIsPriority(group[i].priority, group[j].priority);
      RankIsPriority(group[j].priority, group[i].priority);
    }
    if !OneSign(group) {
      var p, q :| p in group && q in group && p.priority < 0 <= q.priority;
      var i :| 0 <= i < |group| && group[i] == q;
      var j :| 0 <= j < |group| && group[j] == p;
    }
  }

  // ------------------------------------------------------------------- visiting a group

  ghost predicate Known<V>(group: seq<PVMountPoint<V>>, views: map<V, View>) {
    forall p | p in group :: p.volume in views
  }

  /** The key under which a volume is asked: that of the catalog, with the rest behind it. */
  function AdjustedKey<V>(p: PVMountPoint<V>, rest: Key): (k: Key)
    ensures |k| == |p.catalog| + |rest| && k[..|p.catalog|] == p.catalog && k[|p.catalog|..] == rest
  { p.catalog + rest }

  ghost predicate Has<V>(views: map<V, View>, p: PVMountPoint<V>, rest: Key)
    requires p.volume in views
  { AdjustedKey(p, rest) in views[p.volume] }

  ghost predicate Shows<V>(views: map<V, View>, p: PVMountPoint<V>, rest: Key, now: int)
    requires p.volume in views && IsTimeT(now)
  { Visible(views[p.volume], AdjustedKey(p, rest), now) }

  /** The position where a visit of the first `upto` mounts, from the last to the first, finds a visible entry, or -1. */
  ghost function FirstShowing<V>(group: seq<PVMountPoint<V>>, views: map<V, View>, rest: Key, now: int, upto: nat): (at: int)
    requires Known(group, views) && upto <= |group| && IsTimeT(now)
    ensures -1 <= at < upto
    ensures at >= 0 ==> Shows(views, group[at], rest, now)
    ensures forall j | 0 <= j < upto && at < j :: !Shows(views, group[j], rest, now)
  {
    if upto == 0 then -1
    else if Shows(views, group[upto - 1], rest, now) then upto - 1
    else FirstShowing(group, views, rest, now, upto - 1)
  }

  /** The same for any entry, expired or not. */
  ghost function FirstHaving<V>(group: seq<PVMountPoint<V>>, views: map<V, View>, rest: Key, upto: nat): (at: int)
    requires Known(group, views) && upto <= |group|
    ensures -1 <= at < upto
    ensures at >= 0 ==> Has(views, group[at], rest)
    ensures forall j | 0 <= j < upto && at < j :: !Has(views, group[j], rest)
  {
    if upto == 0 then -1
    else if Has(views, group[upto - 1], rest) then upto - 1
    else FirstHaving(group, views, rest, upto - 1)
  }

  /** Is volume `v` asked for key `k` when the mounts from position `from` on are? */
  ghost predicate Asked<V>(group: seq<PVMountPoint<V>>, rest: Key, from: int, v: V, k: Key) {
    exists j :: 0 <= j < |group| && from <= j && group[j].volume == v && AdjustedKey(group[j], rest) == k
  }

  /**
   * The mounts from position `from` on have been asked for the key. An entry is gone exactly if it had expired and was
   * asked for; all others are what they were.
   */
  ghost predicate OverlayAsked<V>(group: seq<PVMountPoint<V>>, views: map<V, View>, views': map<V, View>, rest: Key, now: int,
                                  from: int)
    requires IsTimeT(now)
  {
    && views'.Keys == views.Keys
    && forall v, k | v in views ::
         (k in views'[v] <==> k in views[v] && !(Expired(views[v][k], now) && Asked(group, rest, from, v, k)))
         && (k in views'[v] ==> views'[v][k] == views[v][k])
  }

  /** The views differ only by entries that have expired, so no one can tell them apart while the clock stands. */
  ghost predicate SameVisible<V>(views: map<V, View>, views': map<V, View>, now: int)
    requires IsTimeT(now)
  {
    && views'.Keys == views.Keys
    && forall v, k | v in views ::
         (Visible(views'[v], k, now) <==> Visible(views[v], k, now))
         && (k in views'[v] ==> k in views[v] && views'[v][k] == views[v][k])
  }

  lemma AskingIsInvisible<V>(group: seq<PVMountPoint<V>>, views: map<V, View>, views': map<V, View>, rest: Key, now: int,
                             from: int)
    requires IsTimeT(now) && OverlayAsked(group, views, views', rest, now, from)
    ensures SameVisible(views, views', now)
  {
    hide Asked, Expired;
  }

  /** The mounts have been asked for the key up to the first one, in the order of visits, that shows something. */
  ghost predicate AskedUpToHit<V>(group: seq<PVMountPoint<V>>, views: map<V, View>, views': map<V, View>, rest: Key, now: int)
    requires Known(group, views) && IsTimeT(now)
  { OverlayAsked(group, views, views', rest, now, FirstShowing(group, views, rest, now, |group|)) }

  lemma AskedToHere<V>(group: seq<PVMountPoint<V>>, views: map<V, View>, views': map<V, View>, rest: Key, now: int, at: int)
    requires Known(group, views) && IsTimeT(now) && OverlayAsked(group, views, views', rest, now, at)
    requires at == FirstShowing(group, views, rest, now, |group|)
    ensures AskedUpToHit(group, views, views', rest, now) && SameVisible(views, views', now)
  {
    hide OverlayAsked, SameVisible;
    AskingIsInvisible(group, views, views', rest, now, at);
  }

  lemma SeenTheSame<V>(views: map<V, View>, now: int)
    requires IsTimeT(now)
    ensures SameVisible(views, views, now)
  {
  }

  /** What a user of the overlay gets for a key of a group. */
  ghost function OverlayGet<V>(group: seq<PVMountPoint<V>>, views: map<V, View>, rest: Key, now: int): Result<Value>
    requires Known(group, views) && IsTimeT(now)
  {
    var at := FirstShowing(group, views, rest, now, |group|);
    if at < 0 then Err(KeyNotFound) else Ok(views[group[at].volume][AdjustedKey(group[at], rest)].value)
  }

  ghost function PutView<V>(views: map<V, View>, p: PVMountPoint<V>, rest: Key, value: Value): map<V, View>
    requires p.volume in views
  { views[p.volume := views[p.volume][AdjustedKey(p, rest) := Entry(value, None)]] }

  ghost function DeleteView<V>(views: map<V, View>, p: PVMountPoint<V>, rest: Key): map<V, View>
    requires p.volume in views
  { views[p.volume := views[p.volume] - {AdjustedKey(p, rest)}] }

  /** The mounts from position `from` on refuse the key: they have it, or no room for the value. */
  ghost predicate Refused<V>(group: seq<PVMountPoint<V>>, views: map<V, View>, fulls: set<V>, rest: Key, from: int)
    requires Known(group, views)
  {
    forall j | 0 <= j < |group| && from <= j :: Has(views, group[j], rest) || group[j].volume in fulls
  }

  /**
   * A value was put into the mount at position `at`, which neither had the key nor was one of the `fulls`, which have no
   * room for the value, while all mounts visited before it are such ones. If `at` is -1, all are.
   */
  ghost predicate OverlayPut<V>(group: seq<PVMountPoint<V>>, views: map<V, View>, views': map<V, View>, fulls: set<V>,
                                rest: Key, value: Value, at: int)
    requires Known(group, views)
  {
    && -1 <= at < |group|
    && Refused(group, views, fulls, rest, at + 1)
    && (at >= 0 ==> !Has(views, group[at], rest) && group[at].volume !in fulls)
    && views' == if at < 0 then views else PutView(views, group[at], rest, value)
  }

  /** The mounts from position `from` on show nothing. */
  ghost predicate NoneShown<V>(group: seq<PVMountPoint<V>>, views: map<V, View>, rest: Key, now: int, from: int)
    requires Known(group, views) && IsTimeT(now)
  {
    forall j | 0 <= j < |group| && from <= j :: !Shows(views, group[j], rest, now)
  }

  lemma NothingAsked<V>(group: seq<PVMountPoint<V>>, views: map<V, View>, rest: Key, now: int)
    requires IsTimeT(now) && Known(group, views)
    ensures OverlayAsked(group, views, views, rest, now, |group|) && NoneShown(group, views, rest, now, |group|)
  {
  }

  /** Asking the next mount: it shows what it showed at first, and if it shows nothing the visit goes on. */
  lemma AskedVisit<V>(group: seq<PVMountPoint<V>>, views0: map<V, View>, views: map<V, View>, rest: Key, now: int, i: nat)
    requires Known(group, views0) && IsTimeT(now) && i < |group| && OverlayAsked(group, views0, views, rest, now, i + 1)
    requires NoneShown(group, views0, rest, now, i + 1)
    ensures group[i].volume in views
    ensures var v, k := group[i].volume, AdjustedKey(group[i], rest);
            && OverlayAsked(group, views0, views[v := Purged(views[v], k, now)], rest, now, i)
            && (!Visible(views[v], k, now) ==> NoneShown(group, views0, rest, now, i))
            && (Visible(views[v], k, now) ==>
                  FirstShowing(group, views0, rest, now, |group|) == i
                  && OverlayGet(group, views0, rest, now) == Ok(views[v][k].value))
  {
    assert group[i] in group;
    var v, k := group[i].volume, AdjustedKey(group[i], rest);
    AskedOneMore(group, views0, views, rest, now, i);
    assert Visible(views[v], k, now) <==> Shows(views0, group[i], rest, now);
    if Visible(views[v], k, now) {
      assert FirstShowing(group, views0, rest, now, |group|) == i;
    }
  }

  lemma AskedOneMore<V>(group: seq<PVMountPoint<V>>, views0: map<V, View>, views: map<V, View>, rest: Key, now: int, i: nat)
    requires IsTimeT(now) && i < |group| && OverlayAsked(group, views0, views, rest, now, i + 1)
    requires group[i].volume in views
    ensures var v, k := group[i].volume, AdjustedKey(group[i], rest);
            OverlayAsked(group, views0, views[v := Purged(views[v], k, now)], rest, now, i)
  {
    hide Expired, AdjustedKey;
    var v, k := group[i].volume, AdjustedKey(group[i], rest);
    forall w, q
      ensures Asked(group, rest, i, w, q) <==> Asked(group, rest, i + 1, w, q) || (w == v && q == k)
    {
      if Asked(group, rest, i + 1, w, q) {
        var j :| 0 <= j < |group| && i + 1 <= j && group[j].volume == w && AdjustedKey(group[j], rest) == q;
      }
    }
    hide Asked;
  }

  lemma NoneShowing<V>(group: seq<PVMountPoint<V>>, views: map<V, View>, views': map<V, View>, rest: Key, now: int)
    requires Known(group, views) && IsTimeT(now) && NoneShown(group, views, rest, now, 0)
    requires OverlayAsked(group, views, views', rest, now, 0)
    ensures OverlayGet(group, views, rest, now) == Err(KeyNotFound)
    ensures FirstShowing(group, views, rest, now, |group|) == -1 && OverlayAsked(group, views, views', rest, now, -1)
  {
    hide Expired, AdjustedKey;
    forall v, k
      ensures Asked(group, rest, -1, v, k) <==> Asked(group, rest, 0, v, k)
    {
      if Asked(group, rest, -1, v, k) {
        var j :| 0 <= j < |group| && -1 <= j && group[j].volume == v && AdjustedKey(group[j], rest) == k;
      }
    }
    hide Asked;
  }

  /** The key was deleted from the first mount that has it, if there is one. */
  ghost predicate OverlayDelete<V>(group: seq<PVMountPoint<V>>, views: map<V, View>, views': map<V, View>, rest: Key,
                                   done: bool)
    requires Known(group, views)
  {
    var at := FirstHaving(group, views, rest, |group|);
    && (done <==> at >= 0)
    && views' == if at < 0 then views else DeleteView(views, group[at], rest)
  }

  ghost predicate NoneHas<V>(group: seq<PVMountPoint<V>>, views: map<V, View>, rest: Key, from: int)
    requires Known(group, views)
  {
    forall j | 0 <= j < |group| && from <= j :: !Has(views, group[j], rest)
  }

  lemma NoneYet<V>(group: seq<PVMountPoint<V>>, views: map<V, View>, rest: Key)
    requires Known(group, views)
    ensures NoneHas(group, views, rest, |group|)
  {
  }

  lemma DeleteVisit<V>(group: seq<PVMountPoint<V>>, views: map<V, View>, rest: Key, i: nat)
    requires Known(group, views) && i < |group| && NoneHas(group, views, rest, i + 1)
    ensures group[i].volume in views
    ensures var v, k := group[i].volume, AdjustedKey(group[i], rest);
            var views' := views[v := views[v] - {k}];
            && (k in views[v] ==> OverlayDelete(group, views, views', rest, true))
            && (k !in views[v] ==> views' == views && NoneHas(group, views, rest, i))
  {
    assert group[i] in group;
    var v, k := group[i].volume, AdjustedKey(group[i], rest);
    if k in views[v] {
      assert Has(views, group[i], rest);
      assert FirstHaving(group, views, rest, |group|) == i;
    } else {
      assert views[v] - {k} == views[v];
    }
  }

  lemma NoneHaving<V>(group: seq<PVMountPoint<V>>, views: map<V, View>, rest: Key)
    requires Known(group, views) && NoneHas(group, views, rest, 0)
    ensures OverlayDelete(group, views, views, rest, false)
  {
  }

  // ------------------------------------------------------------------ expiry dates

  /** Does the volume have the key with an expiry date? */
  ghost predicate Dates<V>(views: map<V, View>, p: PVMountPoint<V>, rest: Key)
    requires p.volume in views
  { Has(views, p, rest) && ReadDate(views[p.volume][AdjustedKey(p, rest)]).Ok? }

  ghost function FirstDating<V>(group: seq<PVMountPoint<V>>, views: map<V, View>, rest: Key, upto: nat): (at: int)
    requires Known(group, views) && upto <= |group|
    ensures -1 <= at < upto
    ensures at >= 0 ==> Dates(views, group[at], rest)
    ensures forall j | 0 <= j < upto && at < j :: !Dates(views, group[j], rest)
  {
    if upto == 0 then -1
    else if Dates(views, group[upto - 1], rest) then upto - 1
    else FirstDating(group, views, rest, upto - 1)
  }

  /** The expiry date a user of the overlay reads: that of the first volume visited that has one. */
  ghost function OverlayDate<V>(group: seq<PVMountPoint<V>>, views: map<V, View>, rest: Key): Result<int>
    requires Known(group, views)
  {
    var at := FirstDating(group, views, rest, |group|);
    if at < 0 then Err(KeyNotFound) else ReadDate(views[group[at].volume][AdjustedKey(group[at], rest)])
  }

  ghost predicate NoneDates<V>(group: seq<PVMountPoint<V>>, views: map<V, View>, rest: Key, from: int)
    requires Known(group, views)
  {
    forall j | 0 <= j < |group| && from <= j :: !Dates(views, group[j], rest)
  }

  lemma NoDateYet<V>(group: seq<PVMountPoint<V>>, views: map<V, View>, rest: Key)
    requires Known(group, views)
    ensures NoneDates(group, views, rest, |group|)
  {
  }

  lemma DateVisit<V>(group: seq<PVMountPoint<V>>, views: map<V, View>, rest: Key, i: nat)
    requires Known(group, views) && i < |group| && NoneDates(group, views, rest, i + 1)
    ensures group[i].volume in views
    ensures var m, k := views[group[i].volume], AdjustedKey(group[i], rest);
            var found := if k in m then ReadDate(m[k]) else Err(KeyNotFound);
            && (found.Ok? ==> OverlayDate(group, views, rest) == found)
            && (found.Err? ==> NoneDates(group, views, rest, i))
  {
    assert group[i] in group;
    if Dates(views, group[i], rest) {
      assert FirstDating(group, views, rest, |group|) == i;
    }
  }

  lemma NoDate<V>(group: seq<PVMountPoint<V>>, views: map<V, View>, rest: Key)
    requires Known(group, views) && NoneDates(group, views, rest, 0)
    ensures OverlayDate(group, views, rest) == Err(KeyNotFound)
  {
  }

  ghost function DateView<V>(views: map<V, View>, p: PVMountPoint<V>, rest: Key, date: Time): map<V, View>
    requires p.volume in views
  { views[p.volume := DatedIn(views[p.volume], AdjustedKey(p, rest), date)] }

  /** The date was set in the first mount that has the key, if there is one. */
  ghost predicate OverlayDated<V>(group: seq<PVMountPoint<V>>, views: map<V, View>, views': map<V, View>, rest: Key,
                                  date: Time, done: bool)
    requires Known(group, views)
  {
    var at := FirstHaving(group, views, rest, |group|);
    && (done <==> at >= 0)
    && views' == if at < 0 then views else DateView(views, group[at], rest, date)
  }

  lemma SetDateVisit<V>(group: seq<PVMountPoint<V>>, views: map<V, View>, rest: Key, date: Time, i: nat)
    requires Known(group, views) && i < |group| && NoneHas(group, views, rest, i + 1)
    ensures group[i].volume in views
    ensures var v, k := group[i].volume, AdjustedKey(group[i], rest);
            var views' := views[v := DatedIn(views[v], k, date)];
            && (k in views[v] ==> OverlayDated(group, views, views', rest, date, true))
            && (k !in views[v] ==> views' == views && NoneHas(group, views, rest, i))
  {
    assert group[i] in group;
    if Has(views, group[i], rest) {
      assert FirstHaving(group, views, rest, |group|) == i;
    }
  }

  lemma NoneToDate<V>(group: seq<PVMountPoint<V>>, views: map<V, View>, rest: Key, date: Time)
    requires Known(group, views) && NoneHas(group, views, rest, 0)
    ensures OverlayDated(group, views, views, rest, date, false)
  {
  }

  /** A date that has been set is the one read afterwards, as far as dates read back. */
  lemma SetThenReadDate<V>(group: seq<PVMountPoint<V>>, views: map<V, View>, rest: Key, date: Time)
    requires Known(group, views) && FirstHaving(group, views, rest, |group|) >= 0 && date.Valid()
    ensures var at := FirstHaving(group, views, rest, |group|);
            && Known(group, DateView(views, group[at], rest, date))
            && OverlayDate(group, DateView(views, group[at], rest, date), rest) == Ok(ToTimeT(date))
  {
    var at := FirstHaving(group, views, rest, |group|);
    assert group[at] in group;
    var views' := DateView(views, group[at], rest, date);
    assert Dates(views', group[at], rest);
    forall j | at < j < |group|
      ensures group[j].volume in views' && !Dates(views', group[j], rest)
    {
      assert group[j] in group && !Has(views, group[j], rest);
    }
    assert FirstDating(group, views', rest, |group|) == at;
  }

  /**
   * Value and date may come from different volumes. They come from the same one, or there is no date, exactly if no
   * volume in front of the one that yields the value holds an expired entry, and that volume has a date or none behind it
   * has. `DatesValid` holds of every volume.
   */
  lemma DateOfValueExactly<V>(group: seq<PVMountPoint<V>>, views: map<V, View>, rest: Key, now: int)
    requires Known(group, views) && IsTimeT(now) && DatesValid(views)
    requires FirstShowing(group, views, rest, now, |group|) >= 0
    ensures var at, dated := FirstShowing(group, views, rest, now, |group|), FirstDating(group, views, rest, |group|);
            dated == at || dated < 0
            <==> && (forall j | at < j < |group| :: !Has(views, group[j], rest))
                 && (Dates(views, group[at], rest) || forall j | 0 <= j < at :: !Dates(views, group[j], rest))
  {
    var at, dated := FirstShowing(group, views, rest, now, |group|), FirstDating(group, views, rest, |group|);
    assert group[at] in group;
    forall j | at < j < |group|
      ensures group[j].volume in views && (Dates(views, group[j], rest) <==> Has(views, group[j], rest))
    {
      HiddenIsDated(group, views, rest, now, j);
    }
  }

  /** Expiry dates as they are stored. */
  ghost predicate DatesValid<V>(views: map<V, View>) {
    forall v, k | v in views && k in views[v] :: views[v][k].expiry.Some? ==> views[v][k].expiry.value.Valid()
  }

  /** An entry that is hidden has expired, and so it has a date. */
  lemma HiddenIsDated<V>(group: seq<PVMountPoint<V>>, views: map<V, View>, rest: Key, now: int, j: nat)
    requires Known(group, views) && IsTimeT(now) && DatesValid(views) && j < |group|
    ensures group[j].volume in views
    ensures !Shows(views, group[j], rest, now) && Has(views, group[j], rest) ==> Dates(views, group[j], rest)
  {
    assert group[j] in group;
  }

  /**
   * Where it fails: the volume in front holds an expired entry, the one behind a value without a date. The value read is
   * that of the second, the date that of the first.
   */
  lemma DateOfAnotherValue()
    ensures var front, behind := PVMountPoint(1, [5], 1), PVMountPoint(0, [5], 0);
            var group: seq<PVMountPoint<nat>> := [behind, front];
            var views := map[0 := map[[5, 6] := Entry(Int8(7), None)],
                             1 := map[[5, 6] := Entry(Int8(8), Some(FromTimeT(10)))]];
            && Known(group, views)
            && OverlayGet(group, views, [6], 100) == Ok(Int8(7))
            && OverlayDate(group, views, [6]) == Ok(10)
            && FirstShowing(group, views, [6], 100, 2) == 0 && FirstDating(group, views, [6], 2) == 1
  {
    var front, behind := PVMountPoint(1, [5], 1), PVMountPoint(0, [5], 0);
    var group: seq<PVMountPoint<nat>> := [behind, front];
    var first: View := map[[5, 6] := Entry(Int8(8), Some(FromTimeT(10)))];
    var views := map[0 := map[[5, 6] := Entry(Int8(7), None)], 1 := first];
    assert AdjustedKey(front, [6]) == [5, 6] == AdjustedKey(behind, [6]);
    LessIsNumeric(10, 100);
    ReadsBackExactly(10);
    assert FirstDating(group, views, [6], 2) == 1;
    assert FirstShowing(group, views, [6], 100, 2) == FirstShowing(group, views, [6], 100, 1) == 0;
  }

  // ------------------------------------------------------------------------ laws

  ghost predicate NothingExpired<V>(views: map<V, View>, now: int)
    requires IsTimeT(now)
  {
    forall v, k | v in views && k in views[v] :: Visible(views[v], k, now)
  }

  /** Position `j` is the first one visited that has the key, expired or not. */
  ghost predicate HasFirst<V>(group: seq<PVMountPoint<V>>, views: map<V, View>, rest: Key, j: nat)
    requires Known(group, views)
  {
    j < |group| && Has(views, group[j], rest) && forall i | j < i < |group| :: !Has(views, group[i], rest)
  }

  /** A deletion takes one entry away: that of the first volume visited that has the key. */
  lemma DeletesFirst<V>(group: seq<PVMountPoint<V>>, views: map<V, View>, views': map<V, View>, rest: Key, done: bool, j: nat)
    requires Known(group, views) && OverlayDelete(group, views, views', rest, done) && HasFirst(group, views, rest, j)
    ensures group[j].volume in views
    ensures done && views' == views[group[j].volume := views[group[j].volume] - {group[j].catalog + rest}]
  {
    assert FirstHaving(group, views, rest, |group|) == j;
    assert group[j] in group;
  }

  /** Setting a date changes one entry, that of the first volume visited that has the key, and keeps its value. */
  lemma DatesFirst<V>(group: seq<PVMountPoint<V>>, views: map<V, View>, views': map<V, View>, rest: Key, date: Time,
                      done: bool, j: nat)
    requires Known(group, views) && OverlayDated(group, views, views', rest, date, done) && HasFirst(group, views, rest, j)
    ensures group[j].volume in views && group[j].catalog + rest in views[group[j].volume]
    ensures var v, k := group[j].volume, group[j].catalog + rest;
            done && views' == views[v := views[v][k := Entry(views[v][k].value, Some(date))]]
  {
    assert FirstHaving(group, views, rest, |group|) == j;
    assert group[j] in group;
  }

  /** The value read is that of the first volume visited whose entry has no date or one that is not below the clock. */
  lemma GetsFirst<V>(group: seq<PVMountPoint<V>>, views: map<V, View>, rest: Key, now: int, j: nat)
    requires Known(group, views) && IsTimeT(now) && j < |group| && Shows(views, group[j], rest, now)
    requires forall i | j < i < |group| :: !Shows(views, group[i], rest, now)
    ensures group[j].volume in views && group[j].catalog + rest in views[group[j].volume]
    ensures OverlayGet(group, views, rest, now) == Ok(views[group[j].volume][group[j].catalog + rest].value)
  {
    assert group[j] in group;
    assert FirstShowing(group, views, rest, now, |group|) == j;
  }

  /** Has the mount an entry with a date? */
  ghost predicate HasDate<V>(views: map<V, View>, p: PVMountPoint<V>, rest: Key) {
    p.volume in views && p.catalog + rest in views[p.volume] && views[p.volume][p.catalog + rest].expiry != None
  }

  /** The date read is that of the first volume visited that has one, wherever else the key is; without any, there is none. */
  lemma ReadsFirstDate<V>(group: seq<PVMountPoint<V>>, views: map<V, View>, rest: Key, j: nat)
    requires Known(group, views) && DatesValid(views)
    ensures (forall i | 0 <= i < |group| :: !HasDate(views, group[i], rest)) ==>
              OverlayDate(group, views, rest) == Err(KeyNotFound)
    ensures j < |group| && HasDate(views, group[j], rest) && (forall i | j < i < |group| :: !HasDate(views, group[i], rest)) ==>
              OverlayDate(group, views, rest)
              == Ok(ToTimeT(views[group[j].volume][group[j].catalog + rest].expiry.value))
  {
    forall i | 0 <= i < |group|
      ensures group[i].volume in views && (HasDate(views, group[i], rest) <==> Dates(views, group[i], rest))
    {
      assert group[i] in group;
    }
    if j < |group| && HasDate(views, group[j], rest) && (forall i | j < i < |group| :: !HasDate(views, group[i], rest)) {
      assert FirstDating(group, views, rest, |group|) == j;
    }
  }

  /** A value goes to the first volume visited that neither has the key nor lacks the room; the others stay as they are. */
  lemma PutsFirst<V>(group: seq<PVMountPoint<V>>, views: map<V, View>, views': map<V, View>, fulls: set<V>, rest: Key,
                     value: Value, at: int, j: nat)
    requires Known(group, views) && OverlayPut(group, views, views', fulls, rest, value, at) && j < |group|
    requires !Has(views, group[j], rest) && group[j].volume !in fulls
    requires forall i | j < i < |group| :: Has(views, group[i], rest) || group[i].volume in fulls
    ensures group[j].volume in views && at == j
    ensures views' == views[group[j].volume := views[group[j].volume][group[j].catalog + rest := Entry(value, None)]]
  {
    assert group[j] in group;
  }

  /** Different mounts of the group never ask the same volume for the same key. */
  ghost predicate Distinct<V>(group: seq<PVMountPoint<V>>) {
    forall i, j | 0 <= i < j < |group| :: group[i].volume != group[j].volume || group[i].catalog != group[j].catalog
  }

  lemma AdjustedApart<V>(p: PVMountPoint<V>, q: PVMountPoint<V>, rest: Key)
    ensures AdjustedKey(p, rest) == AdjustedKey(q, rest) <==> p.catalog == q.catalog
  {
    if AdjustedKey(p, rest) == AdjustedKey(q, rest) {
      assert |p.catalog| == |q.catalog|;
      assert p.catalog == AdjustedKey(p, rest)[..|p.catalog|] && q.catalog == AdjustedKey(q, rest)[..|q.catalog|];
    }
  }

  /**
   * A value that has been put is what a later access yields exactly if no volume visited before the one it went to has
   * the key: those may have refused it for want of room. Otherwise they answer as before.
   */
  lemma PutThenGet<V>(group: seq<PVMountPoint<V>>, views: map<V, View>, views': map<V, View>, fulls: set<V>, rest: Key,
                      value: Value, now: int, at: int)
    requires Known(group, views) && IsTimeT(now) && NothingExpired(views, now) && Distinct(group) && at >= 0
    requires OverlayPut(group, views, views', fulls, rest, value, at)
    ensures Known(group, views')
    ensures OverlayGet(group, views', rest, now)
            == if forall j | at < j < |group| :: !Has(views, group[j], rest) then Ok(value)
               else OverlayGet(group, views, rest, now)
  {
    assert group[at] in group;
    forall j | 0 <= j < |group|
      ensures group[j].volume in views && group[j].volume in views'
      ensures j != at ==> Has(views', group[j], rest) == Has(views, group[j], rest)
      ensures j != at && Has(views, group[j], rest) ==>
                views'[group[j].volume][AdjustedKey(group[j], rest)] == views[group[j].volume][AdjustedKey(group[j], rest)]
      ensures Shows(views', group[j], rest, now) <==> j == at || Has(views, group[j], rest)
      ensures Shows(views, group[j], rest, now) <==> Has(views, group[j], rest)
    {
      assert group[j] in group;
      AdjustedApart(group[j], group[at], rest);
    }
    if forall j | at < j < |group| :: !Has(views, group[j], rest) {
      assert FirstShowing(group, views', rest, now, |group|) == at;
    } else {
      var first := FirstShowing(group, views, rest, now, |group|);
      assert first > at;
      assert FirstShowing(group, views', rest, now, |group|) == first;
    }
  }

  /**
   * A Get removes the expired entries in front of the volume that answers, and none behind it. So the date read after it
   * is that of the first volume with a date among the one that answered and those behind it.
   */
  lemma GetThenReadDate<V>(group: seq<PVMountPoint<V>>, views: map<V, View>, views': map<V, View>, rest: Key, now: int)
    requires Known(group, views) && IsTimeT(now) && Distinct(group)
    requires AskedUpToHit(group, views, views', rest, now)
    ensures var at := FirstShowing(group, views, rest, now, |group|);
            && Known(group, views') && Known(group[..at + 1], views)
            && (forall j | 0 <= j < |group| :: SameAt(views, views', group[j], rest, j <= at))
            && OverlayDate(group, views', rest) == OverlayDate(group[..at + 1], views, rest)
  {
    hide OverlayDate, OverlayAsked, SameAt, Distinct, Shows;
    var at := FirstShowing(group, views, rest, now, |group|);
    StillKnown(group, views, views', rest, now, at);
    forall j | 0 <= j < |group|
      ensures SameAt(views, views', group[j], rest, j <= at)
    {
      AskedSame(group, views, views', rest, now, at, j);
    }
    DatedBelow(group, views, views', rest, at + 1);
  }

  lemma StillKnown<V>(group: seq<PVMountPoint<V>>, views: map<V, View>, views': map<V, View>, rest: Key, now: int, from: int)
    requires Known(group, views) && IsTimeT(now) && OverlayAsked(group, views, views', rest, now, from)
    ensures Known(group, views')
  {
  }

  lemma AskedSame<V>(group: seq<PVMountPoint<V>>, views: map<V, View>, views': map<V, View>, rest: Key, now: int, at: int,
                     j: nat)
    requires Known(group, views) && IsTimeT(now) && Distinct(group) && j < |group|
    requires at == FirstShowing(group, views, rest, now, |group|) && OverlayAsked(group, views, views', rest, now, at)
    ensures SameAt(views, views', group[j], rest, j <= at)
  {
    hide Distinct, AdjustedKey, Asked, Expired;
    assert group[j] in group;
    AskedBehind(group, views, rest, now, at, j);
    assert j > at ==> !Shows(views, group[j], rest, now);
  }

  /** Among distinct mounts, exactly those from position `at` on are asked, and the one at `at` shows its entry. */
  lemma AskedBehind<V>(group: seq<PVMountPoint<V>>, views: map<V, View>, rest: Key, now: int, at: int, j: nat)
    requires Known(group, views) && IsTimeT(now) && Distinct(group) && j < |group|
    ensures Asked(group, rest, at, group[j].volume, AdjustedKey(group[j], rest)) <==> at <= j
  {
    if Asked(group, rest, at, group[j].volume, AdjustedKey(group[j], rest)) {
      var i :| 0 <= i < |group| && at <= i && group[i].volume == group[j].volume
               && AdjustedKey(group[i], rest) == AdjustedKey(group[j], rest);
      AdjustedApart(group[i], group[j], rest);
    }
  }

  /** If the first `n` mounts have what they had and the others nothing, the first date found is among these. */
  lemma DatedBelow<V>(group: seq<PVMountPoint<V>>, views: map<V, View>, views': map<V, View>, rest: Key, n: nat)
    requires Known(group, views) && Known(group, views') && n <= |group|
    requires forall j | 0 <= j < |group| :: SameAt(views, views', group[j], rest, j < n)
    ensures Known(group[..n], views) && OverlayDate(group, views', rest) == OverlayDate(group[..n], views, rest)
  {
    hide ReadDate;
    assert FirstDating(group, views', rest, |group|) == FirstDating(group[..n], views, rest, n);
  }

  /** If it is to be there, the entry of the mount is what it was; if not, there is none. */
  ghost predicate SameAt<V>(views: map<V, View>, views': map<V, View>, p: PVMountPoint<V>, rest: Key, there: bool) {
    && p.volume in views && p.volume in views'
    && (Has(views', p, rest) <==> there && Has(views, p, rest))
    && (Has(views', p, rest) ==> views'[p.volume][AdjustedKey(p, rest)] == views[p.volume][AdjustedKey(p, rest)])
  }

  /** Deleting a key uncovers what the volumes behind the first one that has it hold. */
  lemma DeleteThenGet<V>(group: seq<PVMountPoint<V>>, views: map<V, View>, rest: Key, now: int)
    requires Known(group, views) && IsTimeT(now) && NothingExpired(views, now) && Distinct(group)
    requires FirstHaving(group, views, rest, |group|) >= 0
    ensures var at := FirstHaving(group, views, rest, |group|);
            && Known(group, DeleteView(views, group[at], rest)) && Known(group[..at], views)
            && OverlayGet(group, DeleteView(views, group[at], rest), rest, now) == OverlayGet(group[..at], views, rest, now)
  {
    var at := FirstHaving(group, views, rest, |group|);
    var views' := DeleteView(views, group[at], rest);
    assert group[at] in group;
    forall j | 0 <= j < |group|
      ensures group[j].volume in views'
      ensures Shows(views', group[j], rest, now) <==> j < at && Shows(views, group[j], rest, now)
      ensures j < at && group[j].volume == group[at].volume ==> AdjustedKey(group[j], rest) != AdjustedKey(group[at], rest)
    {
      assert group[j] in group;
      AdjustedApart(group[j], group[at], rest);
    }
    ShownBelow(group, views, views', rest, now, at, |group|);
    FirstOfPrefix(group, views, rest, now, at, at);
  }

  lemma {:induction false} ShownBelow<V>(group: seq<PVMountPoint<V>>, views: map<V, View>, views': map<V, View>, rest: Key,
                                         now: int, at: nat, upto: nat)
    requires Known(group, views) && Known(group, views') && IsTimeT(now) && at <= upto <= |group|
    requires forall j | 0 <= j < upto :: Shows(views', group[j], rest, now) <==> j < at && Shows(views, group[j], rest, now)
    ensures FirstShowing(group, views', rest, now, upto) == FirstShowing(group, views, rest, now, at)
    decreases upto
  {
    if upto > at {
      ShownBelow(group, views, views', rest, now, at, upto - 1);
    } else if upto > 0 {
      ShownBelow(group, views, views', rest, now, at - 1, upto - 1);
    }
  }

  lemma {:induction false} FirstOfPrefix<V>(group: seq<PVMountPoint<V>>, views: map<V, View>, rest: Key, now: int, at: nat,
                                            upto: nat)
    requires Known(group, views) && IsTimeT(now) && upto <= at <= |group|
    ensures Known(group[..at], views)
    ensures FirstShowing(group[..at], views, rest, now, upto) == FirstShowing(group, views, rest, now, upto)
  {
    if upto > 0 {
      FirstOfPrefix(group, views, rest, now, at, upto - 1);
    }
  }
}
