/** Whole runs of a volume: created or loaded, used, closed, and loaded again. */
module VolumeRuns {
  import opened Errors
  import opened Time
  import opened Values
  import opened Layout
  import opened FreedChunks
  import opened Device
  import opened EntriesAllocator
  import opened Versions
  import opened VolumeHeader
  import opened EntrySteps
  import opened IndexFormat
  import opened InvertedIndex
  import opened VolumeMap
  import opened PVManager
  import StoredIndex
  import AhoCorasick

  /** Performs one operation; a put under a new key is not `done` exactly if there is no room for the header of its value. */
  method Perform(manager: PVManager, op: VolumeOp) returns (done: bool)
    requires manager.Valid() && op.InRange()
    modifies manager.Repr()
    ensures manager.Valid() && forall o | o in manager.index.Repr() :: o in old(manager.index.Repr()) || fresh(o)
    ensures manager.Map() == if done then Step(old(manager.Map()), op) else old(manager.Map())
    ensures !done <==> op.OpPut? && op.key !in old(manager.Map()) && !old(manager.HasRoom(op.value.HeaderSize()))
    ensures !done ==> manager.Full()
    ensures old(manager.Full()) ==> manager.Full()
    ensures manager.LastStored() == old(manager.LastStored()) && (old(manager.Segregates()) ==> manager.Segregates())
    ensures old(manager.FixedOnly()) ==>
              manager.FixedOnly() && (done ==> manager.Unlisted() == old(manager.Unlisted()))
    ensures op.key != [] ==> manager.stranded == old(manager.stranded)
    ensures |manager.index.Paths()| <= |old(manager.index.Paths())| + PutLength([op])
    ensures manager.index.isChanged == (old(manager.index.isChanged) || manager.Map().Keys != old(manager.Map()).Keys)
  {
    hide PVManager.Valid, PVManager.Map, PVManager.Repr, PVManager.FixedOnly, PVManager.Segregates, PVManager.LastStored,
         InvertedIndexHelper.Repr, InvertedIndexHelper.Paths, AhoCorasick.Prefixes, Expired, PVManager.HasRoom;
    ghost var m := manager.Map();
    PutLengthOfOne(op);
    match op
    case OpPut(key, value) =>
      manager.RootIsPath();
      PathsGrow(manager.index.Paths(), key);
      var r := manager.Put(key, value);
      done := r != UnknownExceptionType;
    case OpGet(key, now) =>
      var _ := manager.Get(key, now);
      done := true;
    case OpHasKey(key, now) =>
      var _ := manager.HasKey(key, now);
      done := true;
    case OpDelete(key) =>
      var _ := manager.Delete(key);
      done := true;
    case OpSetExpired(key, date) =>
      var _ := manager.SetExpiredDate(key, date);
      done := true;
  }

  /** The first value fits a new volume exactly if the device takes the five clusters of its first growth. */
  method FirstPut(device: TestDevice, version: Version, priority: int, key: Key, value: Value)
    returns (manager: Result<PVManager>, put: StorageError)
    requires device.Valid() && device.storage == [] && -I31 <= priority < I31 && value.Fixed() && value.InRange()
    modifies device
    ensures manager.Ok? <==> 124 <= device.capacity
    ensures manager.Ok? ==>
              manager.value.Valid() && put == if 124 + 5 * 3840 <= device.capacity then Success else UnknownExceptionType
    ensures manager.Ok? && put == Success && key != [] ==> manager.value.Map() == map[key := Entry(value, None)]
  {
    hide PVManager.Valid, PVManager.Map, PVManager.FixedOnly, PVManager.Segregates, PVManager.LastStored,
         InvertedIndexHelper.Repr, InvertedIndexHelper.Paths, AhoCorasick.Prefixes, PVManager.HasRoom;
    put := UnknownError;
    manager := PVManager.Create(device, version, priority);
    if manager.Ok? {
      put := manager.value.Put(key, value);
    }
  }

  /**
   * A deleted key makes way for another one: however full the device is, a value whose header is as long as that of the
   * deleted one can be put under any key that is not present.
   */
  method Replace(manager: PVManager, gone: Key, key: Key, value: Value) returns (deleted: StorageError, put: StorageError)
    requires manager.Valid() && value.Fixed() && value.InRange()
    requires gone in manager.Map() && (key == gone || key !in manager.Map())
    modifies manager.Repr()
    ensures manager.Valid() && deleted == Success && old(manager.Map())[gone].value.Fixed()
    ensures put == Success || put == UnknownExceptionType
    ensures value.HeaderSize() == old(manager.Map())[gone].value.HeaderSize() ==> put == Success
    ensures put == Success && key != [] ==> manager.Map() == (old(manager.Map()) - {gone})[key := Entry(value, None)]
  {
    hide PVManager.Valid, PVManager.Map, PVManager.FixedOnly, PVManager.Segregates, PVManager.LastStored,
         InvertedIndexHelper.Repr, InvertedIndexHelper.Paths, AhoCorasick.Prefixes, PVManager.HasRoom;
    deleted := manager.Delete(gone);
    put := manager.Put(key, value);
  }

  /**
   * A key whose entry has expired is refused by `Put` until an access has found it out. Then a value whose header is as
   * long as that of the expired one can always be put, and it is what the key yields from then on.
   */
  method Renew(manager: PVManager, key: Key, value: Value, date: int, now: int)
    returns (early: StorageError, found: Result<Value>, late: StorageError, renewed: Result<Value>)
    requires manager.Valid() && value.Fixed() && value.InRange() && IsTimeT(date) && IsTimeT(now)
    requires key in manager.Map() && manager.Map()[key].expiry == Some(FromTimeT(date)) && key != []
    requires Seconds(date) < Seconds(now)
    modifies manager.Repr()
    ensures manager.Valid() && early == KeyAlreadyCreated && found == Err(KeyNotFound)
    ensures old(manager.Map())[key].value.Fixed() && (late == Success || late == UnknownExceptionType)
    ensures value.HeaderSize() == old(manager.Map())[key].value.HeaderSize() ==> late == Success
    ensures late == Success ==>
              renewed == Ok(value) && manager.Map() == old(manager.Map())[key := Entry(value, None)]
  {
    hide PVManager.Valid, PVManager.Map, PVManager.FixedOnly, PVManager.Segregates, PVManager.LastStored,
         InvertedIndexHelper.Repr, InvertedIndexHelper.Paths, AhoCorasick.Prefixes, PVManager.HasRoom, Purged;
    ghost var m := manager.Map();
    early := manager.Put(key, value);
    found := manager.Get(key, now);
    late := manager.Put(key, value);
    renewed := manager.Get(key, now);
    assert (m - {key})[key := Entry(value, None)] == m[key := Entry(value, None)];
  }

  lemma PutLengthOfOne(op: VolumeOp)
    ensures PutLength([op]) == if op.OpPut? then |op.key| else 0
  {
    var none: seq<VolumeOp> := [];
    assert [op][..0] == none && PutLength(none) == 0;
  }

  /** A put counts on every character of its key. */
  lemma PutLengthNext(ops: seq<VolumeOp>, op: VolumeOp)
    ensures PutLength(ops + [op]) == PutLength(ops) + PutLength([op])
  {
    PutLengthOfOne(op);
    assert (ops + [op])[..|ops|] == ops;
  }

  /**
   * Performs a run of operations. Its effect is that of the same run on a plain map, without the puts for which the
   * device had no room. So what a key holds depends only on the operations that name it, and a value without an expiry
   * date stays until the run deletes its key or sets a date for it. If no put failed, no block has been lost.
   */
  method Execute(manager: PVManager, ops: seq<VolumeOp>) returns (ghost performed: seq<VolumeOp>)
    requires manager.Valid() && AllInRange(ops)
    modifies manager.Repr()
    ensures manager.Valid() && forall o | o in manager.index.Repr() :: o in old(manager.index.Repr()) || fresh(o)
    ensures WithoutPuts(ops, performed) && AllInRange(performed) && (performed != ops ==> manager.Full())
    ensures manager.Map() == Run(old(manager.Map()), performed)
    ensures forall key :: Agree(manager.Map(), RunOn(old(manager.Map()), performed, key), key)
    ensures forall key | key in old(manager.Map()) && old(manager.Map())[key].expiry == None && LeavesAlone(ops, key) ::
              key in manager.Map() && manager.Map()[key] == old(manager.Map())[key]
    ensures manager.LastStored() == old(manager.LastStored()) && (old(manager.Segregates()) ==> manager.Segregates())
    ensures old(manager.FixedOnly()) ==>
              manager.FixedOnly() && (performed == ops ==> manager.Unlisted() == old(manager.Unlisted()))
    ensures (forall op | op in ops :: op.key != []) ==> manager.stranded == old(manager.stranded)
    ensures |manager.index.Paths()| <= |old(manager.index.Paths())| + PutLength(ops)
    ensures manager.index.isChanged == (old(manager.index.isChanged) || Altered(old(manager.Map()), performed))
  {
    hide PVManager.Valid, PVManager.Map, PVManager.FixedOnly, PVManager.Segregates, PVManager.LastStored,
         InvertedIndexHelper.Repr, InvertedIndexHelper.Paths, OutOfRoom, Step, Run, Altered, WithoutPuts, PutLength,
         Agree, LeavesAlone, RunOn;
    ghost var m := manager.Map();
    performed := [];
    RunStarts(m);
    for i := 0 to |ops|
      invariant manager.Valid() && forall o | o in manager.index.Repr() :: o in old(manager.index.Repr()) || fresh(o)
      invariant AllInRange(performed) && WithoutPuts(ops[..i], performed) && (performed != ops[..i] ==> manager.Full())
      invariant manager.Map() == Run(m, performed)
      invariant manager.LastStored() == old(manager.LastStored()) && (old(manager.Segregates()) ==> manager.Segregates())
      invariant |performed| <= i
      invariant old(manager.FixedOnly()) ==>
                  manager.FixedOnly() && (performed == ops[..i] ==> manager.Unlisted() == old(manager.Unlisted()))
      invariant (forall op | op in ops[..i] :: op.key != []) ==> manager.stranded == old(manager.stranded)
      invariant |manager.index.Paths()| <= |old(manager.index.Paths())| + PutLength(ops[..i])
      invariant manager.index.isChanged == (old(manager.index.isChanged) || Altered(m, performed))
    {
      assert ops[..i + 1] == ops[..i] + [ops[i]];
      RunStep(m, ops[..i], performed, ops[i]);
      PutLengthNext(ops[..i], ops[i]);
      var done := Perform(manager, ops[i]);
      if done {
        performed := performed + [ops[i]];
      }
    }
    assert ops[..|ops|] == ops;
    RunCorollaries(m, ops, performed);
  }

  lemma RunStarts(m: map<Key, Entry>)
    ensures AllInRange([]) && WithoutPuts([], []) && Run(m, []) == m && !Altered(m, []) && PutLength([]) == 0
  {
  }

  lemma RunStep(m: map<Key, Entry>, ops: seq<VolumeOp>, performed: seq<VolumeOp>, op: VolumeOp)
    requires AllInRange(performed) && op.InRange() && WithoutPuts(ops, performed)
    ensures AllInRange(performed + [op]) && Run(m, performed + [op]) == Step(Run(m, performed), op)
    ensures WithoutPuts(ops + [op], performed + [op]) && (op.OpPut? ==> WithoutPuts(ops + [op], performed))
    ensures Altered(m, performed + [op]) <==> Altered(m, performed) || Step(Run(m, performed), op).Keys != Run(m, performed).Keys
  {
    hide Step, Run, WithoutPuts;
    RunNext(m, performed, op);
    AlteredNext(m, performed, op);
    WithoutNext(ops, performed, op);
  }

  /** The effect of the operations that name `key`. */
  ghost function RunOn(m: map<Key, Entry>, ops: seq<VolumeOp>, key: Key): map<Key, Entry>
    requires AllInRange(ops)
  {
    OpsOnInRange(ops, key);
    Run(m, OpsOn(ops, key))
  }

  lemma RunCorollaries(m: map<Key, Entry>, ops: seq<VolumeOp>, performed: seq<VolumeOp>)
    requires AllInRange(performed) && WithoutPuts(ops, performed)
    ensures forall key :: Agree(Run(m, performed), RunOn(m, performed, key), key)
    ensures forall key | key in m && m[key].expiry == None && LeavesAlone(ops, key) ::
              key in Run(m, performed) && Run(m, performed)[key] == m[key]
  {
    hide Agree, Run, WithoutPuts;
    forall key
      ensures Agree(Run(m, performed), RunOn(m, performed, key), key)
    {
      KeysAreIndependent(m, performed, key);
    }
    WithoutPutsWithin(ops, performed);
    forall key | key in m && m[key].expiry == None && LeavesAlone(ops, key)
      ensures key in Run(m, performed) && Run(m, performed)[key] == m[key]
    {
      ValuesStay(m, performed, key);
    }
  }

  /**
   * Uses a volume, closes it, and loads it again. The map of the loaded volume is that of the run. The volume may have
   * been closed before: it must then have come out of that with segregated lists, and the chunks of the index stored then
   * must go to the classes they are linked to when they are freed. `apart` tells that the lists will come out of this session
   * segregated as well.
   */
  method Session(manager: PVManager, ops: seq<VolumeOp>, reader: Version)
    returns (r: Result<PVManager>, ghost performed: seq<VolumeOp>, ghost apart: bool)
    requires manager.Valid() && AllInRange(ops) && manager.version.Number() <= reader.Number()
    requires |manager.index.Paths()| + PutLength(ops) <= MAXIMUM_NODES
    requires manager.Segregates()
    requires manager.indexOffset != 0 ==> Wide(manager.LastStored().sizes) && SameClasses(manager.LastStored().sizes)
    modifies manager.Repr()
    ensures WithoutPuts(ops, performed) && AllInRange(performed)
    ensures performed != ops ==> OutOfRoom(manager.entries.rw.device)
    ensures r.Ok? ==> r.value.Valid() && r.value.Map() == Run(old(manager.Map()), performed)
    ensures r.Ok? ==> r.value.entries.priority == old(manager.entries.priority) && r.value.version == reader
    ensures r.Ok? && apart ==> r.value.Segregates()
    ensures r.Ok? ==> r.value.StoredReadable() && |r.value.index.Paths()| * NODE_SIZE <= MAXIMUM_TYPE_SIZE
    ensures var unsaved := old(manager.indexOffset == 0 && !manager.index.isChanged) && !Altered(old(manager.Map()), performed);
            && (unsaved ==> r.Err?)
            && (r.Err? ==>
                  || OutOfRoom(manager.entries.rw.device) || unsaved || !old(manager.StoredReadable())
                  || TooLong(|Run(old(manager.Map()), performed)|, |old(manager.index.Paths())| + PutLength(ops)))
  {
    hide PVManager.Valid, PVManager.Map, PVManager.FixedOnly, PVManager.Segregates, PVManager.CanStore,
         PVManager.ClosesSegregated, IsImage,
         ImageBytes, InvertedIndexHelper.Repr, InvertedIndexHelper.Paths, InvertedIndexHelper.Leafs, Run,
         Altered, WithoutPuts, PutLength, Agree, LeavesAlone, RunOn, SameClasses, Wide, StoredIndex.StoredSizes;
    performed := Execute(manager, ops);
    CanStoreAgain(manager);
    apart := manager.ClosesSegregated();
    manager.LeafPerKey();
    r := Reopen(manager, reader);
  }

  /**
   * Persistence over a whole run: a volume is created on an empty device, used, closed and loaded again. Loading gives
   * the map that the run leads to. It fails only if the device has no room, if the index has become too long to be read,
   * or if the run has not altered the volume. A run that puts a value under a proper key always alters it.
   */
  method RunVolume(device: TestDevice, version: Version, priority: int, ops: seq<VolumeOp>, reader: Version)
    returns (r: Result<PVManager>, ghost performed: seq<VolumeOp>)
    requires device.Valid() && device.storage == [] && -I31 <= priority < I31
    requires AllInRange(ops) && 1 + PutLength(ops) <= MAXIMUM_NODES && version.Number() <= reader.Number()
    modifies device
    ensures AllInRange(performed) && (DATA_START <= device.capacity ==> WithoutPuts(ops, performed))
    ensures performed != ops ==> device.capacity < DATA_START || OutOfRoom(device)
    ensures r.Ok? ==> r.value.Valid() && r.value.Map() == Run(map[], performed)
    ensures r.Ok? ==> r.value.entries.priority == priority && r.value.version == reader
    ensures r.Err? ==> || device.capacity < DATA_START || OutOfRoom(device) || !Altered(map[], performed)
                       || TooLong(|Run(map[], performed)|, 1 + PutLength(ops))
    ensures !Altered(map[], performed) ==> r.Err?
    ensures (exists op | op in performed :: op.OpPut? && op.key != []) ==> Altered(map[], performed)
  {
    hide PVManager.Valid, PVManager.Map, PVManager.FixedOnly, PVManager.Segregates, IsImage, ImageBytes,
         InvertedIndexHelper.Paths, Run, Altered, WithoutPuts, PutLength;
    performed := [];
    var created := PVManager.Create(device, version, priority);
    if created.Err? {
      RunStarts(map[]);
      return Err(created.error), performed;
    }
    ghost var apart;
    r, performed, apart := Session(created.value, ops, reader);
    if exists op | op in performed :: op.OpPut? && op.key != [] {
      PutAlters(performed);
    }
  }
}
