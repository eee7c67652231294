/** The virtual volume: catalogs of physical volumes mounted at paths, visited by priority. */
module Storage {
  import opened Bytes
  import opened Errors
  import opened Time
  import opened Values
  import opened EntrySteps
  import opened VolumeMap
  import opened InvertedIndex
  import opened PVManager
  import opened Overlay
  import AhoCorasick

  /** Group numbers are 32 bits wide; the greatest one stands for "no group". */
  const NO_GROUP: nat := U32 - 1

  type MountPoint = PVMountPoint<PVManager>

  // ------------------------------------------------------------------ one volume

  /** A mounted volume is intact and consists of the objects in `repr`. */
  ghost predicate VolumeAt(m: PVManager, repr: set<object>)
    reads repr
  { {m, m.index, m.index.engine, m.entries.rw.device} <= repr && m.Repr() == repr && m.Valid() }

  ghost function ViewOf(m: PVManager, repr: set<object>): View
    requires VolumeAt(m, repr)
    reads repr
  { m.Map() }

  /** Has the volume no room for a header of `size` bytes? */
  ghost predicate FullAt(m: PVManager, repr: set<object>, size: nat)
    requires VolumeAt(m, repr)
    reads repr
  { !m.HasRoom(size) }

  /** What putting a value into one volume leads to; `full` tells that it had no room. */
  ghost predicate PutStep(v: View, v': View, key: Key, value: Value, r: StorageError, full: bool) {
    && v' == (if r == Success && key != [] then v[key := Entry(value, None)] else v)
    && (r == KeyAlreadyCreated <==> key in v) && (r == Success <==> key !in v && !full)
  }

  /** The same among all volumes: the others do not notice. */
  ghost predicate PutDone(views: map<PVManager, View>, views': map<PVManager, View>, fulls: set<PVManager>,
                          fulls': set<PVManager>, m: PVManager, key: Key, value: Value, r: StorageError)
  {
    && m in views && m in views' && views' == views[m := views'[m]] && (r != Success ==> fulls' == fulls)
    && PutStep(views[m], views'[m], key, value, r, m in fulls)
  }

  lemma PutRecorded(views: map<PVManager, View>, views': map<PVManager, View>, fulls: set<PVManager>,
                    fulls': set<PVManager>, m: PVManager, key: Key, value: Value, r: StorageError)
    requires m in views && views'.Keys == views.Keys && PutStep(views[m], views'[m], key, value, r, m in fulls)
    requires forall n | n in views && n != m :: views'[n] == views[n] && (n in fulls <==> n in fulls')
    requires fulls <= views.Keys && fulls' <= views.Keys && (r != Success ==> (m in fulls <==> m in fulls'))
    ensures PutDone(views, views', fulls, fulls', m, key, value, r)
  {
    hide PutStep;
    assert r != Success ==> forall n | n in views.Keys :: n in fulls <==> n in fulls';
  }

  method PutAlone(m: PVManager, ghost repr: set<object>, key: Key, value: Value)
    returns (r: StorageError, ghost repr': set<object>)
    requires VolumeAt(m, repr) && value.Fixed() && value.InRange()
    modifies repr
    ensures VolumeAt(m, repr') && forall o | o in repr' :: o in repr || fresh(o)
    ensures PutStep(old(ViewOf(m, repr)), ViewOf(m, repr'), key, value, r, old(FullAt(m, repr, value.HeaderSize())))
    ensures r != Success ==> FullAt(m, repr', value.HeaderSize()) == old(FullAt(m, repr, value.HeaderSize()))
  {
    hide PVManager.Valid, PVManager.Map, InvertedIndexHelper.Repr, PVManager.HasRoom;
    r := m.Put(key, value);
    m.Parts();
    repr' := m.Repr();
  }

  method GetAlone(m: PVManager, ghost repr: set<object>, key: Key, now: int) returns (r: Result<Value>)
    requires VolumeAt(m, repr) && IsTimeT(now)
    modifies repr
    ensures VolumeAt(m, repr) && ViewOf(m, repr) == Purged(old(ViewOf(m, repr)), key, now)
    ensures r == if Visible(old(ViewOf(m, repr)), key, now) then Ok(old(ViewOf(m, repr))[key].value) else Err(KeyNotFound)
  {
    hide PVManager.Valid, PVManager.Map, InvertedIndexHelper.Repr, Purged, Visible;
    PurgesExactly(m.Map(), key, now);
    r := m.Get(key, now);
  }

  method HasKeyAlone(m: PVManager, ghost repr: set<object>, key: Key, now: int) returns (r: StorageError)
    requires VolumeAt(m, repr) && IsTimeT(now)
    modifies repr
    ensures VolumeAt(m, repr) && ViewOf(m, repr) == Purged(old(ViewOf(m, repr)), key, now)
    ensures r == if Visible(old(ViewOf(m, repr)), key, now) then Success else KeyNotFound
  {
    hide PVManager.Valid, PVManager.Map, InvertedIndexHelper.Repr, Purged, Visible;
    PurgesExactly(m.Map(), key, now);
    r := m.HasKey(key, now);
  }

  method DeleteAlone(m: PVManager, ghost repr: set<object>, key: Key) returns (r: StorageError)
    requires VolumeAt(m, repr)
    modifies repr
    ensures VolumeAt(m, repr) && ViewOf(m, repr) == old(ViewOf(m, repr)) - {key}
    ensures r == if key in old(ViewOf(m, repr)) then Success else KeyNotFound
  {
    hide PVManager.Valid, PVManager.Map, InvertedIndexHelper.Repr;
    r := m.Delete(key);
  }

  method SetDateAlone(m: PVManager, ghost repr: set<object>, key: Key, date: int) returns (r: StorageError)
    requires VolumeAt(m, repr) && IsTimeT(date)
    modifies repr
    ensures VolumeAt(m, repr) && ViewOf(m, repr) == DatedIn(old(ViewOf(m, repr)), key, FromTimeT(date))
    ensures r == if key in old(ViewOf(m, repr)) then Success else KeyNotFound
  {
    hide PVManager.Valid, PVManager.Map, InvertedIndexHelper.Repr;
    r := m.SetExpiredDate(key, date);
  }

  method GetDateAlone(m: PVManager, ghost repr: set<object>, key: Key) returns (r: Result<int>)
    requires VolumeAt(m, repr)
    ensures r == if key in old(ViewOf(m, repr)) then ReadDate(old(ViewOf(m, repr))[key]) else Err(KeyNotFound)
  {
    hide PVManager.Valid, PVManager.Map, InvertedIndexHelper.Repr, ReadDate;
    r := m.GetExpiredDate(key);
  }

  /** Has the volume ever stored a key that starts with the same character as the catalog? */
  ghost predicate Catalogs(m: PVManager, catalog: Key)
    reads m.index, m.index.engine
  { catalog != [] && catalog[..1] in m.index.Paths() }

  method HasCatalogAlone(m: PVManager, ghost repr: set<object>, catalog: Key) returns (r: StorageError)
    requires VolumeAt(m, repr)
    ensures r == if Catalogs(m, catalog) then Success else KeyNotFound
  {
    hide PVManager.Valid;
    r := m.HasCatalog(catalog);
  }

  // ------------------------------------------------------------------ all volumes

  /** Volumes share nothing with one another. */
  ghost predicate Apart(reprs: map<PVManager, set<object>>, footprint: set<object>) {
    && (forall m | m in reprs :: reprs[m] <= footprint)
    && (forall m, n | m in reprs && n in reprs && m != n :: reprs[m] !! reprs[n])
  }

  /** A volume that has grown by new objects still shares nothing with the others. */
  lemma ApartGrown(reprs: map<PVManager, set<object>>, footprint: set<object>, m: PVManager, repr: set<object>)
    requires Apart(reprs, footprint) && m in reprs && forall o | o in repr :: o in reprs[m] || o !in footprint
    ensures Apart(reprs[m := repr], footprint + repr)
  {
    var reprs' := reprs[m := repr];
    forall n, k | n in reprs' && k in reprs' && n != k
      ensures reprs'[n] !! reprs'[k]
    {
      assert forall o | o in reprs'[n] :: o !in reprs'[k];
    }
  }

  lemma ApartJoined(reprs: map<PVManager, set<object>>, footprint: set<object>, m: PVManager, repr: set<object>)
    requires Apart(reprs, footprint) && m !in reprs && repr !! footprint
    ensures Apart(reprs[m := repr], footprint + repr) && forall n | n in reprs :: reprs[n] <= footprint
  {
    var reprs' := reprs[m := repr];
    forall n, k | n in reprs' && k in reprs' && n != k
      ensures reprs'[n] !! reprs'[k]
    {
      assert forall o | o in reprs'[n] :: o !in reprs'[k];
    }
  }

  lemma MoreVolumes(mounts: map<Key, seq<MountPoint>>, volumes: set<PVManager>, m: PVManager)
    requires MountsKnown(mounts, volumes)
    ensures MountsKnown(mounts, volumes + {m})
  {
  }

  lemma ApartPairs(reprs: map<PVManager, set<object>>, footprint: set<object>, m: PVManager)
    requires Apart(reprs, footprint) && m in reprs
    ensures reprs[m] <= footprint && forall n | n in reprs && n != m :: reprs[n] !! reprs[m] && reprs[n] <= footprint
  {
  }

  // --------------------------------------------------------------------- the groups

  ghost predicate IndexAt(index: InvertedIndexHelper, repr: set<object>)
    reads repr
  { {index, index.engine} <= repr && index.Repr() == repr && index.Valid() }

  ghost function LeafsAt(index: InvertedIndexHelper, repr: set<object>): map<Key, nat>
    requires IndexAt(index, repr)
    reads repr
  { index.Leafs() }

  ghost function PathsAt(index: InvertedIndexHelper, repr: set<object>): set<Key>
    requires IndexAt(index, repr)
    reads repr
  { index.Paths() }

  method InsertAlone(index: InvertedIndexHelper, ghost repr: set<object>, key: Key, leaf: nat)
    returns (ghost repr': set<object>)
    requires IndexAt(index, repr) && leaf < index.engine.none
    modifies repr
    ensures IndexAt(index, repr') && forall o | o in repr' :: o in repr || fresh(o)
    ensures LeafsAt(index, repr') == if key == [] then old(LeafsAt(index, repr)) else old(LeafsAt(index, repr))[key := leaf]
    ensures PathsAt(index, repr') == old(PathsAt(index, repr)) + AhoCorasick.Prefixes(key)
  {
    hide AhoCorasick.Prefixes, InvertedIndexHelper.Valid, InvertedIndexHelper.Leafs, InvertedIndexHelper.Paths;
    var _ := index.Insert(key, leaf);
    repr' := index.Repr();
  }

  ghost predicate Numbered(leafs: map<Key, nat>, i: nat) {
    exists c | c in leafs :: leafs[c] == i
  }

  /**
   * The leafs of the index and the groups correspond one to one, apart from `orphans`: groups mounted at the empty
   * path, which no key leads to. Each group is the one its mounts build.
   */
  ghost predicate GroupsAt(leafs: map<Key, nat>, groups: seq<seq<MountPoint>>, mounts: map<Key, seq<MountPoint>>,
                           orphans: set<nat>)
  {
    && mounts.Keys == leafs.Keys && [] !in leafs
    && (forall c | c in leafs :: leafs[c] < |groups| && leafs[c] !in orphans && groups[leafs[c]] == GroupOf(mounts[c]))
    && (forall c, d | c in leafs && d in leafs && c != d :: leafs[c] != leafs[d])
    && (forall i: nat | i < |groups| :: i in orphans || Numbered(leafs, i))
    && (forall i | i in orphans :: i < |groups|)
  }

  /** When nothing is mounted at the empty path, the mounted paths and the groups correspond one to one. */
  lemma OneGroupPerPath(leafs: map<Key, nat>, groups: seq<seq<MountPoint>>, mounts: map<Key, seq<MountPoint>>, i: nat)
    requires GroupsAt(leafs, groups, mounts, {})
    ensures i < |groups| <==> exists c :: c in mounts && leafs[c] == i
    ensures forall c, d | c in mounts && d in mounts && leafs[c] == leafs[d] :: c == d
  {
    if i < |groups| {
      assert Numbered(leafs, i);
    }
  }

  lemma NothingMounted()
    ensures GroupsAt(map[], [], map[], {}) && PathsOfMounts({[]}, {}) && MountsKnown(map[], {})
  {
  }

  ghost predicate MountsKnown(mounts: map<Key, seq<MountPoint>>, volumes: set<PVManager>) {
    forall c, p | c in mounts && p in mounts[c] :: p.volume in volumes && p.catalog != []
  }

  /** One more mount at a path; the empty path leads nowhere. */
  ghost function MountsAdded(mounts: map<Key, seq<MountPoint>>, c: Key, p: MountPoint): map<Key, seq<MountPoint>> {
    if c == [] then mounts else mounts[c := (if c in mounts then mounts[c] else []) + [p]]
  }

  lemma MountsStillKnown(mounts: map<Key, seq<MountPoint>>, volumes: set<PVManager>, c: Key, p: MountPoint)
    requires MountsKnown(mounts, volumes) && p.volume in volumes && p.catalog != []
    ensures MountsKnown(MountsAdded(mounts, c, p), volumes)
  {
  }

  /** The first mount at a path starts a new group. */
  lemma GroupStarted(leafs: map<Key, nat>, groups: seq<seq<MountPoint>>, mounts: map<Key, seq<MountPoint>>,
                     orphans: set<nat>, c: Key, p: MountPoint)
    requires GroupsAt(leafs, groups, mounts, orphans) && c !in leafs && c != []
    ensures GroupsAt(leafs[c := |groups|], groups + [[p]], MountsAdded(mounts, c, p), orphans)
  {
    hide GroupOf, Numbered, MountsAdded;
    var leafs', groups', mounts' := leafs[c := |groups|], groups + [[p]], MountsAdded(mounts, c, p);
    FirstMount(mounts, c, p);
    forall i: nat | i < |groups'|
      ensures i in orphans || Numbered(leafs', i)
    {
      StillNumbered(leafs, orphans, c, |groups|, i);
    }
    forall d | d in leafs'
      ensures leafs'[d] < |groups'| && leafs'[d] !in orphans && groups'[leafs'[d]] == GroupOf(mounts'[d])
    {
    }
  }

  lemma FirstMount(mounts: map<Key, seq<MountPoint>>, c: Key, p: MountPoint)
    requires c !in mounts && c != []
    ensures MountsAdded(mounts, c, p) == mounts[c := [p]] && GroupOf([p]) == [p]
  {
    GroupOfOne(p);
    assert [] + [p] == [p];
  }

  lemma StillNumbered(leafs: map<Key, nat>, orphans: set<nat>, c: Key, n: nat, i: nat)
    requires c !in leafs && i <= n && (i < n ==> i in orphans || Numbered(leafs, i))
    ensures i in orphans || Numbered(leafs[c := n], i)
  {
    var leafs' := leafs[c := n];
    if i < n && i !in orphans {
      var d :| d in leafs && leafs[d] == i;
      assert leafs'[d] == i;
    } else if i == n {
      assert leafs'[c] == i;
    }
  }

  /** A mount at the empty path starts a group that no key leads to. */
  lemma GroupOrphaned(leafs: map<Key, nat>, groups: seq<seq<MountPoint>>, mounts: map<Key, seq<MountPoint>>,
                      orphans: set<nat>, p: MountPoint)
    requires GroupsAt(leafs, groups, mounts, orphans)
    ensures GroupsAt(leafs, groups + [[p]], MountsAdded(mounts, [], p), orphans + {|groups|})
  {
    hide GroupOf, Numbered;
  }

  lemma GroupOfOne(p: MountPoint)
    ensures GroupOf([p]) == [p]
  {
    var none: seq<MountPoint> := [];
    assert GroupOf(none) == [] && [p][..0] == none;
    assert InsertAt(none, 0, p) == [p];
  }

  /** A later mount at a path is inserted into its group. */
  lemma GroupExtended(leafs: map<Key, nat>, groups: seq<seq<MountPoint>>, mounts: map<Key, seq<MountPoint>>,
                      orphans: set<nat>, c: Key, p: MountPoint, at: nat)
    requires GroupsAt(leafs, groups, mounts, orphans) && c in leafs
    requires leafs[c] < |groups| && IsLowerBound(groups[leafs[c]], p.priority, at)
    ensures GroupsAt(leafs, groups[leafs[c] := InsertAt(groups[leafs[c]], at, p)], MountsAdded(mounts, c, p), orphans)
    ensures c != []
  {
    hide GroupOf, IsLowerBound, InsertAt, Numbered;
    GroupGrows(mounts[c], p, at);
    assert MountsAdded(mounts, c, p).Keys == leafs.Keys;
  }

  /** The standard search for the first mount whose priority is not below the given one. */
  method SearchLowerBound(group: seq<MountPoint>, priority: int) returns (at: nat)
    requires Sorted(group)
    ensures IsLowerBound(group, priority, at)
  {
    var first: nat, count: nat := 0, |group|;
    while count > 0
      invariant first + count <= |group|
      invariant forall i | 0 <= i < first :: Rank(group[i].priority) < Rank(priority)
      invariant forall i | first + count <= i < |group| :: Rank(priority) <= Rank(group[i].priority)
    {
      var step := count / 2;
      if Rank(group[first + step].priority) < Rank(priority) {
        first, count := first + step + 1, count - step - 1;
      } else {
        count := step;
      }
    }
    return first;
  }

  ghost predicate MountsIn(group: seq<MountPoint>, volumes: set<PVManager>) {
    forall p | p in group :: p.volume in volumes && p.catalog != []
  }

  lemma GroupKnown(mounts: map<Key, seq<MountPoint>>, volumes: set<PVManager>, c: Key)
    requires MountsKnown(mounts, volumes) && c in mounts
    ensures MountsIn(GroupOf(mounts[c]), volumes)
  {
    forall p | p in GroupOf(mounts[c])
      ensures p.volume in volumes && p.catalog != []
    {
      GroupMembers(mounts[c], p);
    }
  }

  lemma MountAt(group: seq<MountPoint>, volumes: set<PVManager>, i: nat)
    requires MountsIn(group, volumes) && i < |group|
    ensures group[i].volume in volumes && group[i].catalog != []
  {
    assert group[i] in group;
  }

  class Storage {
    var groups: seq<seq<MountPoint>>
    const index: InvertedIndexHelper
    /** The mounts that built the group of each catalog, oldest first. */
    ghost var mounts: map<Key, seq<MountPoint>>
    /** The objects each mounted volume is made of, and all of them together. */
    ghost var reprs: map<PVManager, set<object>>
    ghost var footprint: set<object>
    /** The objects of the index, and the groups no key leads to. */
    ghost var indexRepr: set<object>
    ghost var orphans: set<nat>

    constructor ()
      ensures Valid() && reprs == map[] && mounts == map[] && orphans == {}
      ensures fresh(indexRepr) && footprint == {}
    {
      groups, mounts, reprs, footprint, orphans := [], map[], map[], {}, {};
      index := new InvertedIndexHelper(NO_GROUP);
      new;
      hide LeafsOf, InvertedIndexHelper.Valid, InvertedIndexHelper.Leafs, InvertedIndexHelper.Paths, GroupsAt,
           PathsOfMounts, MountsKnown;
      indexRepr := index.Repr();
      NothingMounted();
    }

    ghost predicate Valid()
      reads this, footprint, indexRepr
    {
      && this !in footprint && this !in indexRepr && indexRepr !! footprint
      && Volumes() && Routes() && MountsKnown(mounts, reprs.Keys)
    }

    /** The index leads to the groups, and the groups are what the mounts have built. */
    ghost predicate Routes()
      reads this`groups, this`mounts, this`orphans, this`indexRepr, indexRepr
    {
      && IndexAt(index, indexRepr) && index.engine.none == NO_GROUP
      && PathsOfMounts(PathsAt(index, indexRepr), LeafsAt(index, indexRepr).Keys)
      && GroupsAt(LeafsAt(index, indexRepr), groups, mounts, orphans)
    }

    ghost predicate Volumes()
      reads this`reprs, this`footprint, footprint
    {
      Apart(reprs, footprint) && forall m | m in reprs :: VolumeAt(m, reprs[m])
    }

    /** The map of every mounted volume. */
    ghost function Views(): map<PVManager, View>
      requires Volumes()
      reads this`reprs, this`footprint, footprint
    { map m | m in reprs :: ViewOf(m, reprs[m]) }

    /** The volumes that have no room for a header of `size` bytes. */
    ghost function Fulls(size: nat): set<PVManager>
      requires Volumes()
      reads this`reprs, this`footprint, footprint
    { set m | m in reprs && FullAt(m, reprs[m], size) }

    /** A volume has grown by new objects. */
    ghost method Regrown(m: PVManager, repr: set<object>)
      requires m in reprs && Apart(reprs, footprint) && VolumeAt(m, repr)
      requires forall n | n in reprs && n != m :: VolumeAt(n, reprs[n])
      requires forall o | o in repr :: o in reprs[m] || o !in footprint
      requires this !in footprint && this !in repr
      modifies this`reprs, this`footprint
      ensures reprs == old(reprs)[m := repr] && reprs.Keys == old(reprs.Keys) && footprint == old(footprint) + repr
      ensures Volumes()
    {
      hide VolumeAt, Apart;
      ApartPairs(reprs, footprint, m);
      ApartGrown(reprs, footprint, m, repr);
      reprs := reprs[m := repr];
      footprint := footprint + repr;
      assert reprs.Keys == old(reprs.Keys);
    }

    method PutInto(m: PVManager, key: Key, value: Value) returns (r: StorageError)
      requires Valid() && m in reprs && value.Fixed() && value.InRange()
      modifies this`reprs, this`footprint, reprs[m]
      ensures Valid() && reprs.Keys == old(reprs.Keys) && forall o | o in footprint :: o in old(footprint) || fresh(o)
      ensures PutDone(old(Views()), Views(), old(Fulls(value.HeaderSize())), Fulls(value.HeaderSize()), m, key, value, r)
    {
      hide Routes, MountsKnown, VolumeAt, ViewOf, FullAt, PutStep, PutDone, Apart;
      ApartPairs(reprs, footprint, m);
      ghost var size := value.HeaderSize();
      ghost var views, fulls := Views(), Fulls(size);
      ghost var repr';
      r, repr' := PutAlone(m, reprs[m], key, value);
      assert Routes() && forall o | o in repr' :: o !in indexRepr;
      Regrown(m, repr');
      PutRecorded(views, Views(), fulls, Fulls(size), m, key, value, r);
    }

    method GetFrom(m: PVManager, key: Key, now: int) returns (r: Result<Value>)
      requires Valid() && m in reprs && IsTimeT(now)
      modifies reprs[m]
      ensures Valid() && Views() == old(Views())[m := Purged(old(Views())[m], key, now)]
      ensures r == if Visible(old(Views())[m], key, now) then Ok(old(Views())[m][key].value) else Err(KeyNotFound)
    {
      hide Routes, MountsKnown, VolumeAt, ViewOf, FullAt, Purged, Visible;
      r := GetAlone(m, reprs[m], key, now);
    }

    method HasKeyIn(m: PVManager, key: Key, now: int) returns (r: StorageError)
      requires Valid() && m in reprs && IsTimeT(now)
      modifies reprs[m]
      ensures Valid() && Views() == old(Views())[m := Purged(old(Views())[m], key, now)]
      ensures r == if Visible(old(Views())[m], key, now) then Success else KeyNotFound
    {
      hide Routes, MountsKnown, VolumeAt, ViewOf, FullAt, Purged, Visible;
      r := HasKeyAlone(m, reprs[m], key, now);
    }

    method DeleteFrom(m: PVManager, key: Key) returns (r: StorageError)
      requires Valid() && m in reprs
      modifies reprs[m]
      ensures Valid() && Views() == old(Views())[m := old(Views())[m] - {key}]
      ensures r == if key in old(Views())[m] then Success else KeyNotFound
    {
      hide Routes, MountsKnown, VolumeAt, ViewOf, FullAt;
      r := DeleteAlone(m, reprs[m], key);
    }

    method SetDateIn(m: PVManager, key: Key, date: int) returns (r: StorageError)
      requires Valid() && m in reprs && IsTimeT(date)
      modifies reprs[m]
      ensures Valid() && Views() == old(Views())[m := DatedIn(old(Views())[m], key, FromTimeT(date))]
      ensures r == if key in old(Views())[m] then Success else KeyNotFound
    {
      hide Routes, MountsKnown, VolumeAt, ViewOf, FullAt, DatedIn;
      r := SetDateAlone(m, reprs[m], key, date);
    }

    method GetDateFrom(m: PVManager, key: Key) returns (r: Result<int>)
      requires Valid() && m in reprs
      ensures r == if key in old(Views())[m] then ReadDate(old(Views())[m][key]) else Err(KeyNotFound)
    {
      hide Routes, MountsKnown, VolumeAt, ViewOf, FullAt, ReadDate;
      r := GetDateAlone(m, reprs[m], key);
    }

    /** The dates in the maps of the volumes are as the overlay laws need them. */
    lemma ViewsDated()
      requires Volumes()
      ensures DatesValid(Views())
    {
      hide PVManager.Valid, PVManager.Map;
      forall m, key | m in Views() && key in Views()[m]
        ensures Views()[m][key].expiry.Some? ==> Views()[m][key].expiry.value.Valid()
      {
        assert VolumeAt(m, reprs[m]);
        m.DatesAreValid(key);
      }
    }

    lemma VolumesViewed()
      requires Volumes()
      ensures Views().Keys == reprs.Keys
    {
    }

    lemma VolumeInside(m: PVManager)
      requires Volumes() && m in reprs
      ensures reprs[m] <= footprint && VolumeAt(m, reprs[m])
    {
    }

    // ------------------------------------------------------------------ routing

    lemma LeadsTo(c: Key, key: Key)
      requires Valid() && c in mounts && ResolvesTo(mounts.Keys, key, c)
      ensures Leads(mounts, Views(), key, c) && MountsIn(GroupOf(mounts[c]), reprs.Keys)
      ensures Known(GroupOf(mounts[c]), Views()) && |c| <= |key|
    {
      hide Volumes;
      GroupKnown(mounts, reprs.Keys, c);
    }

    /** The group a key leads to, and the catalog it is mounted at. */
    method GetVolumeGroupRange(key: Key) returns (r: Result<seq<MountPoint>>, ghost c: Key)
      requires Valid()
      ensures r.Err? ==> r.error == CatalogNotFoundError && forall d :: !ResolvesTo(mounts.Keys, key, d)
      ensures r.Ok? ==> c in mounts && ResolvesTo(mounts.Keys, key, c) && r.value == GroupOf(mounts[c])
    {
      hide Volumes, InvertedIndexHelper.Valid, InvertedIndexHelper.Repr, PathsOfMounts, AhoCorasick.IsMaxSubKey,
           ResolvesTo, MountsKnown;
      var n := index.FindMaxSubKey(key);
      MaxSubKeyFits(index.Paths(), key, n);
      c := key[..n];
      forall d
        ensures ResolvesTo(mounts.Keys, key, d) <==> d == key[..n] && d in mounts.Keys
      {
        RouteDecides(mounts.Keys, index.Paths(), key, n, d);
      }
      var id := index.Get(key[..n]);
      if id == NO_GROUP {
        return Err(CatalogNotFoundError), c;
      }
      return Ok(groups[id]), c;
    }

    /** The part of the key behind the catalog it leads to. */
    method CatalogKey(key: Key, ghost c: Key) returns (rest: Key)
      requires Valid() && ResolvesTo(mounts.Keys, key, c)
      ensures |c| <= |key| && rest == key[|c|..]
    {
      hide Volumes, InvertedIndexHelper.Valid, InvertedIndexHelper.Repr, PathsOfMounts, AhoCorasick.IsMaxSubKey,
           ResolvesTo, MountsKnown;
      var n := index.FindMaxSubKey(key);
      MaxSubKeyFits(index.Paths(), key, n);
      RouteDecides(mounts.Keys, index.Paths(), key, n, c);
      return key[n..];
    }

    // ------------------------------------------------------------------- mounting

    lemma GroupIsSorted(c: Key)
      requires Valid()
      ensures c in LeafsAt(index, indexRepr) ==>
                LeafsAt(index, indexRepr)[c] < |groups| && Sorted(groups[LeafsAt(index, indexRepr)[c]])
    {
      hide Volumes, GroupOf, Sorted, PathsOfMounts;
      if c in LeafsAt(index, indexRepr) {
        var _ := GroupIsOrdered(mounts[c]);
      }
    }

    /** Starts a group with the first mount at its path. */
    method StartGroup(p: MountPoint, catalog: Key)
      requires Valid() && p.volume in reprs && p.catalog != [] && |groups| < NO_GROUP
      requires catalog !in LeafsAt(index, indexRepr)
      modifies this`groups, this`mounts, this`orphans, this`indexRepr, indexRepr
      ensures Valid() && Views() == old(Views()) && (forall o | o in indexRepr :: o in old(indexRepr) || fresh(o))
      ensures mounts == MountsAdded(old(mounts), catalog, p)
      ensures orphans == (if catalog == [] then old(orphans) + {old(|groups|)} else old(orphans))
    {
      hide Volumes, Views, MountsKnown, MountsAdded, GroupOf, IsLowerBound, Sorted, PathsOfMounts, LeafsOf, GroupsAt,
           AhoCorasick.Prefixes, InvertedIndexHelper.Valid, InvertedIndexHelper.Leafs, InvertedIndexHelper.Paths,
           IndexAt, LeafsAt, PathsAt;
      ghost var leafs := LeafsAt(index, indexRepr);
      MountsStillKnown(mounts, reprs.Keys, catalog, p);
      if catalog == [] {
        GroupOrphaned(leafs, groups, mounts, orphans, p);
      } else {
        GroupStarted(leafs, groups, mounts, orphans, catalog, p);
      }
      PathsAdded(PathsAt(index, indexRepr), leafs, catalog, |groups|);
      ghost var repr' := InsertAlone(index, indexRepr, catalog, |groups|);
      orphans := if catalog == [] then orphans + {|groups|} else orphans;
      groups, mounts := groups + [[p]], MountsAdded(mounts, catalog, p);
      indexRepr := repr';
    }

    /** Adds a mount to the group of its path, in front of all mounts of the same or a higher priority. */
    method AddNewMountPoint(p: MountPoint, catalog: Key) returns (r: StorageError)
      requires Valid() && p.volume in reprs && p.catalog != [] && |groups| < NO_GROUP
      modifies this`groups, this`mounts, this`orphans, this`indexRepr, indexRepr
      ensures Valid() && Views() == old(Views()) && (forall o | o in indexRepr :: o in old(indexRepr) || fresh(o))
      ensures r == Success && mounts == MountsAdded(old(mounts), catalog, p)
      ensures orphans == (if catalog == [] then old(orphans) + {old(|groups|)} else old(orphans))
    {
      hide Volumes, Views, MountsKnown, MountsAdded, GroupOf, IsLowerBound, Sorted, PathsOfMounts, LeafsOf, GroupsAt,
           AhoCorasick.Prefixes, InvertedIndexHelper.Valid, InvertedIndexHelper.Leafs, InvertedIndexHelper.Paths;
      var id := index.Get(catalog);
      if id == NO_GROUP {
        StartGroup(p, catalog);
        return Success;
      }
      GroupIsSorted(catalog);
      if id > |groups| {
        return UnknownError;
      }
      MountsStillKnown(mounts, reprs.Keys, catalog, p);
      var group := groups[id];
      var at := SearchLowerBound(group, p.priority);
      GroupExtended(LeafsAt(index, indexRepr), groups, mounts, orphans, catalog, p, at);
      LowerBoundFits(group, p.priority, at);
      if at == |group| {
        assert InsertAt(group, at, p) == group + [p];
        groups := groups[id := group + [p]];
      } else {
        groups := groups[id := group[..at] + [p] + group[at..]];
      }
      mounts := MountsAdded(mounts, catalog, p);
      return Success;
    }

    /** From now on the volume is one of the storage. */
    ghost method Register(m: PVManager, repr: set<object>)
      requires Valid() && m !in reprs && VolumeAt(m, repr)
      requires repr !! footprint && repr !! indexRepr && this !in repr
      modifies this`reprs, this`footprint
      ensures Valid() && reprs == old(reprs)[m := repr] && Views() == old(Views())[m := ViewOf(m, repr)]
    {
      hide VolumeAt, ViewOf, FullAt, Routes, Apart, MountsKnown;
      ApartJoined(reprs, footprint, m, repr);
      MoreVolumes(mounts, reprs.Keys, m);
      reprs := reprs[m := repr];
      footprint := footprint + repr;
      assert reprs.Keys == old(reprs.Keys) + {m};
    }

    /**
     * Mounts a catalog of a volume at a path. The volume is refused exactly if it has never stored a key that starts with
     * the same character as the catalog. A volume mounted for the first time is seen as it is.
     */
    method Mount(manager: PVManager, storageCatalog: Key, pvCatalog: Key) returns (r: StorageError)
      requires Valid() && |groups| < NO_GROUP
      requires manager in reprs || (VolumeAt(manager, manager.Repr()) && this !in manager.Repr()
                                    && manager.Repr() !! footprint && manager.Repr() !! indexRepr)
      modifies this, indexRepr
      ensures Valid() && (r == Success || r == CatalogNotFoundError)
      ensures forall m | m in old(Views()) :: m in Views() && Views()[m] == old(Views())[m]
      ensures mounts == if r != Success || storageCatalog == [] then old(mounts) else
                          old(mounts)[storageCatalog :=
                                        (if storageCatalog in old(mounts) then old(mounts)[storageCatalog] else [])
                                        + [PVMountPoint(manager, pvCatalog, old(manager.entries.priority))]]
      ensures r == Success <==> old(Catalogs(manager, pvCatalog))
      ensures r == Success ==> manager in reprs && pvCatalog != [] && manager in Views()
      ensures r == Success && manager !in old(reprs) ==> Views()[manager] == old(ViewOf(manager, manager.Repr()))
    {
      hide VolumeAt, ViewOf, FullAt, Routes, Apart, MountsKnown, PVManager.Valid, Volumes, Views;
      ghost var views := Views();
      VolumesViewed();
      if manager in reprs {
        VolumeInside(manager);
      }
      ghost var repr := if manager in reprs then reprs[manager] else manager.Repr();
      var has := HasCatalogAlone(manager, repr, pvCatalog);
      assert Views() == views;
      if has != Success {
        return CatalogNotFoundError;
      }
      r := MountVolume(manager, repr, storageCatalog, pvCatalog);
    }

    /** Mounts a catalog of a volume that has it. */
    method MountVolume(manager: PVManager, ghost repr: set<object>, storageCatalog: Key, pvCatalog: Key)
      returns (r: StorageError)
      requires Valid() && |groups| < NO_GROUP && pvCatalog != []
      requires manager !in reprs ==> VolumeAt(manager, repr) && this !in repr && repr !! footprint && repr !! indexRepr
      modifies this, indexRepr
      ensures Valid() && r == Success && manager in reprs && manager in Views()
      ensures forall m | m in old(Views()) :: m in Views() && Views()[m] == old(Views())[m]
      ensures mounts == MountsAdded(old(mounts), storageCatalog,
                                    PVMountPoint(manager, pvCatalog, old(manager.entries.priority)))
      ensures manager !in old(reprs) ==> Views()[manager] == old(ViewOf(manager, repr))
    {
      hide VolumeAt, ViewOf, FullAt, Routes, Apart, MountsKnown, MountsAdded, PVManager.Valid, Volumes, Views;
      VolumesViewed();
      var priority := manager.entries.priority;
      if manager !in reprs {
        Register(manager, repr);
      }
      r := AddNewMountPoint(PVMountPoint(manager, pvCatalog, priority), storageCatalog);
      VolumesViewed();
    }

    // ----------------------------------------------------------------- operations

    /** Visits one mount to put a value. */
    method PutAt(group: seq<MountPoint>, i: nat, rest: Key, value: Value) returns (r: StorageError)
      requires Valid() && value.Fixed() && value.InRange()
      requires i < |group| && group[i].volume in reprs && group[i].catalog != [] && Known(group, Views())
      requires Refused(group, Views(), Fulls(value.HeaderSize()), rest, i + 1)
      modifies this`reprs, this`footprint, footprint
      ensures Valid() && reprs.Keys == old(reprs.Keys) && forall o | o in footprint :: o in old(footprint) || fresh(o)
      ensures r == Success ==> OverlayPut(group, old(Views()), Views(), old(Fulls(value.HeaderSize())), rest, value, i)
      ensures r != Success ==> Views() == old(Views()) && Fulls(value.HeaderSize()) == old(Fulls(value.HeaderSize()))
                               && Refused(group, Views(), Fulls(value.HeaderSize()), rest, i)
    {
      hide AdjustedKey, Volumes, Routes, MountsKnown, PutDone, Refused, Known, PutView, Has, OverlayPut, Views, Fulls;
      var p := group[i];
      VolumeInside(p.volume);
      ghost var size := value.HeaderSize();
      ghost var views, fulls := Views(), Fulls(size);
      r := PutInto(p.volume, AdjustedKey(p, rest), value);
      PutVisited(group, views, Views(), fulls, Fulls(size), rest, value, i, r);
    }

    /**
     * Puts a value into the first volume, in the order of visits, that neither has the key nor lacks the room for the
     * value. `c` is the catalog the key leads to, and `at` the position of that volume in the group.
     */
    method Put(key: Key, value: Value) returns (r: StorageError, ghost c: Key, ghost at: int)
      requires Valid() && value.Fixed() && value.InRange()
      modifies this`reprs, this`footprint, footprint
      ensures Valid() && mounts == old(mounts)
      ensures r == CatalogNotFoundError ==> (forall d :: !ResolvesTo(mounts.Keys, key, d)) && Views() == old(Views())
      ensures r != CatalogNotFoundError ==>
                && Leads(mounts, old(Views()), key, c) && r == (if at < 0 then KeyNotFound else Success)
                && OverlayPut(GroupOf(mounts[c]), old(Views()), Views(), old(Fulls(value.HeaderSize())), key[|c|..], value, at)
    {
      hide AdjustedKey, Volumes, Routes, MountsKnown, ResolvesTo, PutDone, Refused, Known, PutView, Has, GroupOf, MountsIn,
           OverlayPut, Leads, Views, Fulls;
      ghost var size := value.HeaderSize();
      ghost var views, fulls := Views(), Fulls(size);
      var range;
      range, c := GetVolumeGroupRange(key);
      assert Views() == views;
      at := -1;
      if range.Err? {
        return range.error, c, at;
      }
      var group := range.value;
      LeadsTo(c, key);
      var rest := CatalogKey(key, c);
      NoneVisited(group, views, fulls, rest);
      for i := |group| downto 0
        invariant Valid() && mounts == old(mounts) && reprs.Keys == old(reprs.Keys)
        invariant forall o | o in footprint :: o in old(footprint) || fresh(o)
        invariant Views() == views && Fulls(size) == fulls && Known(group, views) && Refused(group, views, fulls, rest, i)
      {
        MountAt(group, reprs.Keys, i);
        var done := PutAt(group, i, rest, value);
        if done == Success {
          return Success, c, i;
        }
      }
      AllRefused(group, views, fulls, rest, value);
      return KeyNotFound, c, at;
    }

    /**
     * Yields the value of the first volume, in the order of visits, that shows one. What the volumes visited before it
     * hold under the key has expired and is removed; nothing else is.
     */
    method Get(key: Key, now: int) returns (r: Result<Value>, ghost c: Key)
      requires Valid() && IsTimeT(now)
      modifies footprint
      ensures Valid() && mounts == old(mounts) && SameVisible(old(Views()), Views(), now)
      ensures r == Err(CatalogNotFoundError) ==> (forall d :: !ResolvesTo(mounts.Keys, key, d)) && Views() == old(Views())
      ensures r != Err(CatalogNotFoundError) ==>
                && Leads(mounts, old(Views()), key, c)
                && r == OverlayGet(GroupOf(mounts[c]), old(Views()), key[|c|..], now)
                && AskedUpToHit(GroupOf(mounts[c]), old(Views()), Views(), key[|c|..], now)
    {
      hide AdjustedKey, Volumes, Routes, MountsKnown, ResolvesTo, Known, GroupOf, MountsIn, SameVisible, NoneShown, OverlayGet,
           Visible, Purged, Shows, Leads, Views, OverlayAsked, AskedUpToHit;
      ghost var views := Views();
      var range;
      range, c := GetVolumeGroupRange(key);
      assert Views() == views;
      SeenTheSame(views, now);
      if range.Err? {
        return Err(range.error), c;
      }
      var group := range.value;
      LeadsTo(c, key);
      var rest := CatalogKey(key, c);
      NothingAsked(group, views, rest, now);
      for i := |group| downto 0
        invariant Valid() && mounts == old(mounts) && reprs == old(reprs) && footprint == old(footprint)
        invariant OverlayAsked(group, views, Views(), rest, now, i) && NoneShown(group, views, rest, now, i)
      {
        var p := group[i];
        MountAt(group, reprs.Keys, i);
        VolumeInside(p.volume);
        ghost var before := Views();
        AskedVisit(group, views, before, rest, now, i);
        var result := GetFrom(p.volume, AdjustedKey(p, rest), now);
        if result.Ok? {
          AskedToHere(group, views, Views(), rest, now, i);
          return result, c;
        }
      }
      NoneShowing(group, views, Views(), rest, now);
      AskedToHere(group, views, Views(), rest, now, -1);
      return Err(KeyNotFound), c;
    }

    /** Tells whether any volume of the group shows the key. */
    method HasKey(key: Key, now: int) returns (r: StorageError, ghost c: Key)
      requires Valid() && IsTimeT(now)
      modifies footprint
      ensures Valid() && mounts == old(mounts) && SameVisible(old(Views()), Views(), now)
      ensures r == CatalogNotFoundError ==> (forall d :: !ResolvesTo(mounts.Keys, key, d)) && Views() == old(Views())
      ensures r != CatalogNotFoundError ==>
                && Leads(mounts, old(Views()), key, c)
                && r == (if OverlayGet(GroupOf(mounts[c]), old(Views()), key[|c|..], now).Ok? then Success else KeyNotFound)
                && AskedUpToHit(GroupOf(mounts[c]), old(Views()), Views(), key[|c|..], now)
    {
      hide AdjustedKey, Volumes, Routes, MountsKnown, ResolvesTo, Known, GroupOf, MountsIn, SameVisible, NoneShown, OverlayGet,
           Visible, Purged, Shows, Leads, Views, OverlayAsked, AskedUpToHit;
      ghost var views := Views();
      var range;
      range, c := GetVolumeGroupRange(key);
      assert Views() == views;
      SeenTheSame(views, now);
      if range.Err? {
        return range.error, c;
      }
      var group := range.value;
      LeadsTo(c, key);
      var rest := CatalogKey(key, c);
      NothingAsked(group, views, rest, now);
      for i := |group| downto 0
        invariant Valid() && mounts == old(mounts) && reprs == old(reprs) && footprint == old(footprint)
        invariant OverlayAsked(group, views, Views(), rest, now, i) && NoneShown(group, views, rest, now, i)
      {
        var p := group[i];
        MountAt(group, reprs.Keys, i);
        VolumeInside(p.volume);
        ghost var before := Views();
        AskedVisit(group, views, before, rest, now, i);
        var result := HasKeyIn(p.volume, AdjustedKey(p, rest), now);
        if result == Success {
          AskedToHere(group, views, Views(), rest, now, i);
          return Success, c;
        }
      }
      NoneShowing(group, views, Views(), rest, now);
      AskedToHere(group, views, Views(), rest, now, -1);
      return KeyNotFound, c;
    }

    /** Visits one mount to delete the key. */
    method DeleteAt(group: seq<MountPoint>, i: nat, rest: Key) returns (r: StorageError)
      requires Valid() && i < |group| && group[i].volume in reprs && Known(group, Views())
      requires NoneHas(group, Views(), rest, i + 1)
      modifies footprint
      ensures Valid() && r != CatalogNotFoundError
      ensures r == Success ==> OverlayDelete(group, old(Views()), Views(), rest, true)
      ensures r != Success ==> Views() == old(Views()) && NoneHas(group, Views(), rest, i)
    {
      hide AdjustedKey, Volumes, Routes, MountsKnown, Known, NoneHas, OverlayDelete, Views;
      var p := group[i];
      VolumeInside(p.volume);
      DeleteVisit(group, Views(), rest, i);
      r := DeleteFrom(p.volume, AdjustedKey(p, rest));
    }

    /** Deletes the key from the first volume that has it. */
    method Delete(key: Key) returns (r: StorageError, ghost c: Key)
      requires Valid()
      modifies footprint
      ensures Valid() && mounts == old(mounts)
      ensures r == CatalogNotFoundError ==> (forall d :: !ResolvesTo(mounts.Keys, key, d)) && Views() == old(Views())
      ensures r != CatalogNotFoundError ==>
                && Leads(mounts, old(Views()), key, c)
                && OverlayDelete(GroupOf(mounts[c]), old(Views()), Views(), key[|c|..], r == Success)
                && (r == Success || r == KeyNotFound)
    {
      hide AdjustedKey, Volumes, Routes, MountsKnown, ResolvesTo, Known, GroupOf, MountsIn, NoneHas, OverlayDelete, DeleteView,
           Has, Leads, Views;
      ghost var views := Views();
      var range;
      range, c := GetVolumeGroupRange(key);
      assert Views() == views;
      if range.Err? {
        return range.error, c;
      }
      var group := range.value;
      LeadsTo(c, key);
      var rest := CatalogKey(key, c);
      NoneYet(group, views, rest);
      for i := |group| downto 0
        invariant Valid() && mounts == old(mounts) && reprs == old(reprs) && footprint == old(footprint)
        invariant Views() == views && NoneHas(group, views, rest, i)
      {
        MountAt(group, reprs.Keys, i);
        var done := DeleteAt(group, i, rest);
        if done == Success {
          return Success, c;
        }
      }
      NoneHaving(group, views, rest);
      return KeyNotFound, c;
    }

    /** Visits one mount to set the date of the key. */
    method SetDateAt(group: seq<MountPoint>, i: nat, rest: Key, expired: int) returns (r: StorageError)
      requires Valid() && IsTimeT(expired) && i < |group| && group[i].volume in reprs && Known(group, Views())
      requires NoneHas(group, Views(), rest, i + 1)
      modifies footprint
      ensures Valid() && r != CatalogNotFoundError
      ensures r == Success ==> OverlayDated(group, old(Views()), Views(), rest, FromTimeT(expired), true)
      ensures r != Success ==> Views() == old(Views()) && NoneHas(group, Views(), rest, i)
    {
      hide AdjustedKey, Volumes, Routes, MountsKnown, Known, NoneHas, OverlayDated, DatedIn, Views;
      var p := group[i];
      VolumeInside(p.volume);
      SetDateVisit(group, Views(), rest, FromTimeT(expired), i);
      r := SetDateIn(p.volume, AdjustedKey(p, rest), expired);
    }

    /** Sets the date of the first volume that has the key. */
    method SetExpiredDate(key: Key, expired: int) returns (r: StorageError, ghost c: Key)
      requires Valid() && IsTimeT(expired)
      modifies footprint
      ensures Valid() && mounts == old(mounts)
      ensures r == CatalogNotFoundError ==> (forall d :: !ResolvesTo(mounts.Keys, key, d)) && Views() == old(Views())
      ensures r != CatalogNotFoundError ==>
                && Leads(mounts, old(Views()), key, c) && (r == Success || r == KeyNotFound)
                && OverlayDated(GroupOf(mounts[c]), old(Views()), Views(), key[|c|..], FromTimeT(expired), r == Success)
    {
      hide AdjustedKey, Volumes, Routes, MountsKnown, ResolvesTo, Known, GroupOf, MountsIn, NoneHas, OverlayDated, DatedIn, Has,
           Leads, Views;
      ghost var views := Views();
      var range;
      range, c := GetVolumeGroupRange(key);
      assert Views() == views;
      if range.Err? {
        return range.error, c;
      }
      var group := range.value;
      LeadsTo(c, key);
      var rest := CatalogKey(key, c);
      NoneYet(group, views, rest);
      for i := |group| downto 0
        invariant Valid() && mounts == old(mounts) && reprs == old(reprs) && footprint == old(footprint)
        invariant Views() == views && NoneHas(group, views, rest, i)
      {
        MountAt(group, reprs.Keys, i);
        var done := SetDateAt(group, i, rest, expired);
        if done == Success {
          return Success, c;
        }
      }
      NoneToDate(group, views, rest, FromTimeT(expired));
      return KeyNotFound, c;
    }

    /** The date of the first volume that has the key with a date. */
    method GetExpiredDate(key: Key) returns (r: Result<int>, ghost c: Key)
      requires Valid()
      ensures r == Err(CatalogNotFoundError) ==> forall d :: !ResolvesTo(mounts.Keys, key, d)
      ensures r != Err(CatalogNotFoundError) ==>
                && Leads(mounts, old(Views()), key, c)
                && r == OverlayDate(GroupOf(mounts[c]), old(Views()), key[|c|..])
    {
      hide AdjustedKey, Volumes, Routes, MountsKnown, ResolvesTo, Known, GroupOf, MountsIn, NoneDates, OverlayDate, ReadDate,
           Dates, Leads, Views;
      ghost var views := Views();
      var range;
      range, c := GetVolumeGroupRange(key);
      assert Views() == views;
      if range.Err? {
        return Err(range.error), c;
      }
      var group := range.value;
      LeadsTo(c, key);
      var rest := CatalogKey(key, c);
      NoDateYet(group, views, rest);
      for i := |group| downto 0
        invariant Valid() && Views() == views && NoneDates(group, views, rest, i)
      {
        var p := group[i];
        MountAt(group, reprs.Keys, i);
        DateVisit(group, views, rest, i);
        var result := GetDateFrom(p.volume, AdjustedKey(p, rest));
        if result.Ok? {
          return result, c;
        }
      }
      NoDate(group, views, rest);
      return Err(KeyNotFound), c;
    }
  }

  /**
   * Reading a value and then its date. If no two mounts of the group ask the same volume for the same key, the date is that
   * of the first volume with a date among the one that has answered and those behind it.
   */
  method GetWithDate(storage: Storage, key: Key, now: int)
    returns (value: Result<Value>, date: Result<int>, ghost c: Key)
    requires storage.Valid() && IsTimeT(now)
    modifies storage.footprint
    ensures storage.Valid()
    ensures value != Err(CatalogNotFoundError) ==>
              && Leads(storage.mounts, old(storage.Views()), key, c)
              && var group, views, rest := GroupOf(storage.mounts[c]), old(storage.Views()), key[|c|..];
              && value == OverlayGet(group, views, rest, now)
              && (Distinct(group) ==>
                    var at := FirstShowing(group, views, rest, now, |group|);
                    Known(group[..at + 1], views) && date == OverlayDate(group[..at + 1], views, rest))
  {
    hide Storage.Volumes, Storage.Routes, MountsKnown, Storage.Views, ResolvesTo, GroupOf, Known, Distinct, OverlayGet,
         OverlayDate, AskedUpToHit, SameVisible;
    ghost var views := storage.Views();
    value, c := storage.Get(key, now);
    ghost var d;
    date, d := storage.GetExpiredDate(key);
    if value != Err(CatalogNotFoundError) {
      assert date != Err(CatalogNotFoundError);
      ResolvesToOne(storage.mounts.Keys, key, c, d);
      ghost var group := GroupOf(storage.mounts[c]);
      if Distinct(group) {
        GetThenReadDate(group, views, storage.Views(), key[|c|..], now);
      }
    }
  }

  lemma AllRefused(group: seq<MountPoint>, views: map<PVManager, View>, fulls: set<PVManager>, rest: Key, value: Value)
    requires Known(group, views) && Refused(group, views, fulls, rest, 0)
    ensures OverlayPut(group, views, views, fulls, rest, value, -1)
  {
  }

  lemma NoneVisited(group: seq<MountPoint>, views: map<PVManager, View>, fulls: set<PVManager>, rest: Key)
    requires Known(group, views)
    ensures Refused(group, views, fulls, rest, |group|)
  {
  }

  /** What a visit of one more mount leads to. */
  lemma PutVisited(group: seq<MountPoint>, views: map<PVManager, View>, views': map<PVManager, View>,
                   fulls: set<PVManager>, fulls': set<PVManager>, rest: Key, value: Value, i: nat, r: StorageError)
    requires i < |group| && Known(group, views) && group[i].catalog != [] && Refused(group, views, fulls, rest, i + 1)
    requires PutDone(views, views', fulls, fulls', group[i].volume, AdjustedKey(group[i], rest), value, r)
    ensures r == Success ==> OverlayPut(group, views, views', fulls, rest, value, i)
    ensures r != Success ==> views' == views && fulls' == fulls && Refused(group, views, fulls, rest, i)
  {
    assert group[i] in group;
    assert AdjustedKey(group[i], rest) != [];
  }

  /** The key leads to the group of catalog `c`, whose volumes are all known. */
  ghost predicate Leads(mounts: map<Key, seq<MountPoint>>, views: map<PVManager, View>, key: Key, c: Key) {
    && c in mounts && ResolvesTo(mounts.Keys, key, c) && |c| <= |key|
    && Known(GroupOf(mounts[c]), views)
  }

  lemma LowerBoundFits(group: seq<MountPoint>, priority: int, at: nat)
    requires IsLowerBound(group, priority, at)
    ensures at <= |group|
  {
  }

  lemma PathsAdded(paths: set<Key>, leafs: map<Key, nat>, c: Key, id: nat)
    requires PathsOfMounts(paths, leafs.Keys)
    ensures PathsOfMounts(paths + AhoCorasick.Prefixes(c), (if c == [] then leafs else leafs[c := id]).Keys)
  {
    hide PathsOfMounts, AhoCorasick.Prefixes;
    if c == [] {
      RootIsPath(paths, leafs.Keys);
    } else {
      MountedAdded(paths, leafs.Keys, c);
      assert leafs[c := id].Keys == leafs.Keys + {c};
    }
  }

  lemma RootIsPath(paths: set<Key>, catalogs: set<Key>)
    requires PathsOfMounts(paths, catalogs)
    ensures paths + AhoCorasick.Prefixes([]) == paths
  {
    AhoCorasick.PrefixesOfNone([]);
    var root: Key := [];
    assert root[..0] == root && root in paths;
  }

  lemma MaxSubKeyFits(keys: set<Key>, key: Key, n: nat)
    requires AhoCorasick.IsMaxSubKey(keys, key, n)
    ensures n <= |key|
  {
  }
}