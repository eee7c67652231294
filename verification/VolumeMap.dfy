/** What a volume means to its users: a map from keys to entries, read through the index and the live blocks. */
module VolumeMap {
  import opened Bytes
  import opened Errors
  import opened Layout
  import opened Blocks
  import opened Time
  import opened Values
  import opened EntrySteps
  import AhoCorasick

  type Key = AhoCorasick.Key

  /**
   * Every indexed key has a live entry of its own, and every live entry belongs to a key. The only exceptions are
   * `stranded` entries, which were stored under the empty key and which no key leads to.
   */
  ghost predicate Consistent(leafs: map<Key, nat>, live: map<nat, SimpleHeader>, stranded: set<nat>) {
    && (forall k | k in leafs :: leafs[k] in live && leafs[k] !in stranded)
    && (forall k, q | k in leafs && q in leafs && k != q :: leafs[k] != leafs[q])
    && (forall o | o in live :: Typed(live[o]) && (o in stranded || Indexed(leafs, o)))
    && (forall o | o in stranded :: o in live)
  }

  ghost predicate Indexed(leafs: map<Key, nat>, o: nat) {
    exists k | k in leafs :: leafs[k] == o
  }

  /** The entry of each key. */
  ghost function Entries(leafs: map<Key, nat>, live: map<nat, SimpleHeader>, stranded: set<nat>): map<Key, Entry>
    requires Consistent(leafs, live, stranded)
  { map k | k in leafs :: EntryOf(live[leafs[k]]) }

  /** What the index says about a key leads to its entry. */
  lemma EntryOfKey(leafs: map<Key, nat>, live: map<nat, SimpleHeader>, stranded: set<nat>, key: Key)
    requires Consistent(leafs, live, stranded)
    ensures key in Entries(leafs, live, stranded) <==> key in leafs
    ensures key in leafs ==> leafs[key] in live && Typed(live[leafs[key]])
                             && Entries(leafs, live, stranded)[key] == EntryOf(live[leafs[key]])
  {
  }

  lemma NothingStored()
    ensures Consistent(map[], map[], {}) && Entries(map[], map[], {}) == map[]
  {
  }

  /** A new entry under a new key. */
  lemma StoredUnder(leafs: map<Key, nat>, st: State, st': State, stranded: set<nat>, key: Key, o: nat, v: Value)
    requires Consistent(leafs, st.live, stranded) && Stored(st, st', o, v) && key !in leafs
    ensures Consistent(leafs[key := o], st'.live, stranded)
    ensures Entries(leafs[key := o], st'.live, stranded)
            == Entries(leafs, st.live, stranded)[key := Entry(v, None)]
  {
    hide Typed, EntryOf, Indexed;
    var leafs' := leafs[key := o];
    forall p | p in st'.live
      ensures Typed(st'.live[p]) && (p in stranded || Indexed(leafs', p))
    {
      StillIndexed(leafs, key, o, p);
    }
    assert Consistent(leafs', st'.live, stranded);
    assert Entries(leafs', st'.live, stranded).Keys == leafs'.Keys;
    assert Entries(leafs, st.live, stranded).Keys == leafs.Keys;
  }

  lemma StillIndexed(leafs: map<Key, nat>, key: Key, o: nat, p: nat)
    requires key !in leafs
    ensures p == o || Indexed(leafs, p) ==> Indexed(leafs[key := o], p)
  {
    if p == o {
      assert leafs[key := o][key] == p;
    } else if Indexed(leafs, p) {
      var k :| k in leafs && leafs[k] == p;
      assert leafs[key := o][k] == p;
    }
  }

  /** A new entry that no key leads to. */
  lemma StoredStranded(leafs: map<Key, nat>, st: State, st': State, stranded: set<nat>, o: nat, v: Value)
    requires Consistent(leafs, st.live, stranded) && Stored(st, st', o, v)
    ensures Consistent(leafs, st'.live, stranded + {o})
    ensures Entries(leafs, st'.live, stranded + {o}) == Entries(leafs, st.live, stranded)
    ensures o !in stranded
  {
    hide Typed, EntryOf, Indexed;
  }

  /** The entry of a key is deleted together with the key. */
  lemma DeletedUnder(leafs: map<Key, nat>, st: State, st': State, stranded: set<nat>, key: Key)
    requires Consistent(leafs, st.live, stranded) && key in leafs && EntrySteps.Deleted(st, st', leafs[key])
    ensures Consistent(leafs - {key}, st'.live, stranded)
    ensures Entries(leafs - {key}, st'.live, stranded) == Entries(leafs, st.live, stranded) - {key}
  {
    hide Typed, EntryOf, Release;
    var leafs' := leafs - {key};
    forall p | p in st'.live
      ensures Typed(st'.live[p]) && (p in stranded || Indexed(leafs', p))
    {
      if p !in stranded {
        assert Indexed(leafs, p);
        var k :| k in leafs && leafs[k] == p;
        assert k in leafs' && leafs'[k] == p;
      }
    }
    assert Consistent(leafs', st'.live, stranded);
    assert Entries(leafs', st'.live, stranded).Keys == leafs'.Keys;
    assert Entries(leafs, st.live, stranded).Keys == leafs.Keys;
  }

  /** The expiry date of one entry is set. */
  lemma DatedUnder(leafs: map<Key, nat>, st: State, st': State, stranded: set<nat>, key: Key, expired: Time)
    requires Consistent(leafs, st.live, stranded) && key in leafs && Dated(st, st', leafs[key], expired)
    ensures Consistent(leafs, st'.live, stranded)
    ensures var m := Entries(leafs, st.live, stranded);
            Entries(leafs, st'.live, stranded) == m[key := Entry(m[key].value, Some(expired))]
  {
    hide Typed, EntryOf, Indexed;
    var o := leafs[key];
    forall p | p in st'.live
      ensures Typed(st'.live[p]) && (p in stranded || Indexed(leafs, p))
    {
      assert Typed(st.live[p]);
    }
    assert Consistent(leafs, st'.live, stranded);
    forall k | k in leafs
      ensures EntryOf(st'.live[leafs[k]]) == if k == key then Entry(EntryOf(st.live[o]).value, Some(expired))
                                             else EntryOf(st.live[leafs[k]])
    {
    }
    assert Entries(leafs, st'.live, stranded).Keys == leafs.Keys;
    assert Entries(leafs, st.live, stranded).Keys == leafs.Keys;
  }

  lemma LiveIsIndexed(leafs: map<Key, nat>, live: map<nat, SimpleHeader>, stranded: set<nat>, o: nat)
    requires Consistent(leafs, live, stranded)
    ensures o in live ==> o in stranded || exists k :: k in leafs && leafs[k] == o
  {
    if o in live && o !in stranded {
      assert Indexed(leafs, o);
    }
  }

  /** Without stranded entries, keys and live entries correspond one to one. */
  lemma OneToOne(leafs: map<Key, nat>, live: map<nat, SimpleHeader>, o: nat)
    requires Consistent(leafs, live, {})
    ensures o in live <==> exists k :: k in leafs && leafs[k] == o
    ensures forall k, q | k in leafs && q in leafs && leafs[k] == leafs[q] :: k == q
  {
    if o in live {
      assert Indexed(leafs, o);
    }
  }

  // ---------------------------------------------------------------------- expiry

  /** The range of the system's clock. */
  predicate IsTimeT(t: int) { -I64 <= t < I64 }

  /** Is the stored expiry date below the clock? */
  ghost predicate Expired(e: Entry, now: int)
    requires IsTimeT(now)
  { e.expiry.Some? && e.expiry.value.Less(FromTimeT(now)) }

  ghost predicate Visible(m: map<Key, Entry>, key: Key, now: int)
    requires IsTimeT(now)
  { key in m && !Expired(m[key], now) }

  /** What an access to `key` leaves: an expired entry is removed. */
  ghost function Purged(m: map<Key, Entry>, key: Key, now: int): map<Key, Entry>
    requires IsTimeT(now)
  { if key in m && Expired(m[key], now) then m - {key} else m }

  /**
   * What that comes to: no other key notices, an entry without a date stays, and one with a date set by the library goes
   * exactly if the date, saturated at 48 bits, is below the clock. What shows is what stays.
   */
  lemma PurgesExactly(m: map<Key, Entry>, key: Key, now: int)
    requires IsTimeT(now)
    ensures Purged(m, key, now) == m
            || (Purged(m, key, now) == m - {key} && key in m && m[key].expiry != None)
    ensures forall date | IsTimeT(date) && key in m && m[key].expiry == Some(FromTimeT(date)) ::
              key !in Purged(m, key, now) <==> Seconds(date) < Seconds(now)
    ensures Visible(m, key, now) <==> key in Purged(m, key, now)
  {
    forall date | IsTimeT(date) && key in m && m[key].expiry == Some(FromTimeT(date))
      ensures key !in Purged(m, key, now) <==> Seconds(date) < Seconds(now)
    {
      LessIsNumeric(date, now);
    }
  }

  /** What putting a value leads to: nothing, for the empty key and for a key that is present. */
  ghost function PutIn(m: map<Key, Entry>, key: Key, value: Value): map<Key, Entry> {
    if key in m || key == [] then m else m[key := Entry(value, None)]
  }

  ghost function DatedIn(m: map<Key, Entry>, key: Key, date: Time): map<Key, Entry> {
    if key in m then m[key := Entry(m[key].value, Some(date))] else m
  }

  /** The expiry date a user reads. */
  ghost function ReadDate(e: Entry): Result<int> {
    if e.expiry.Some? && e.expiry.value.Valid() then Ok(ToTimeT(e.expiry.value)) else Err(KeyDoesntExpired)
  }

  /**
   * What is read of an entry: an error if it has no date, and of a date set by the library the lower 32 bits and, moved
   * up by another 16, the bits above them.
   */
  lemma ReadDateIs(e: Entry)
    ensures e.expiry == None ==> ReadDate(e) == Err(KeyDoesntExpired)
    ensures forall date | IsTimeT(date) && e.expiry == Some(FromTimeT(date)) ::
              && ReadDate(e).Ok? && IsTimeT(ReadDate(e).value)
              && Unsigned(ReadDate(e).value) % U48 == Seconds(date) % U32
              && Unsigned(ReadDate(e).value) / U48 == Seconds(date) / U32
  {
    forall date | IsTimeT(date) && e.expiry == Some(FromTimeT(date))
      ensures && ReadDate(e).Ok? && IsTimeT(ReadDate(e).value)
              && Unsigned(ReadDate(e).value) % U48 == Seconds(date) % U32
              && Unsigned(ReadDate(e).value) / U48 == Seconds(date) / U32
    {
      ReadsBackShifted(date);
    }
  }

  /** A date that was set is read back as itself exactly when it is below 2^32, or the one exception. */
  lemma DatesReadBack(v: Value, date: int)
    requires IsTimeT(date)
    ensures ReadDate(Entry(v, Some(FromTimeT(date)))) == Ok(date) <==> 0 <= date < U32 || date == FIXED_POINT
  {
    ReadsBackExactly(date);
  }

  /** An entry with an expiry date set by the library is hidden exactly when the saturated date is below the clock. */
  lemma ExpiredIsNumeric(v: Value, date: int, now: int)
    requires IsTimeT(date) && IsTimeT(now)
    ensures Expired(Entry(v, Some(FromTimeT(date))), now) <==> Seconds(date) < Seconds(now)
  {
    LessIsNumeric(date, now);
  }

  /**
   * As long as the clock does not run backwards, what was hidden stays hidden, and no later Get or HasKey notices a purge.
   * Put and GetExpiredDate do: the one refuses a key that has expired, the other reads its date.
   */
  lemma PurgeIsUnobservable(m: map<Key, Entry>, key: Key, now: int, k: Key, later: int)
    requires IsTimeT(now) && IsTimeT(later) && 0 <= now <= later
    ensures Visible(Purged(m, key, now), k, later) <==> Visible(m, k, later)
    ensures Visible(m, k, later) ==> Purged(m, key, now)[k] == m[k]
    ensures k in m && !Visible(m, k, now) ==> !Visible(m, k, later)
  {
    LessIsMonotone(if k in m && m[k].expiry.Some? then m[k].expiry.value else Time(0, 0), now, later);
  }

  lemma LessIsMonotone(t: Time, now: int, later: int)
    requires IsTimeT(now) && IsTimeT(later) && 0 <= now <= later
    ensures t.Less(FromTimeT(now)) ==> t.Less(FromTimeT(later))
  {
    var a, b := FromTimeT(now), FromTimeT(later);
    assert a.high <= b.high;
    assert a.high == b.high ==> a.low <= b.low;
  }

  // --------------------------------------------------------------- over whole runs

  datatype VolumeOp =
    | OpPut(key: Key, value: Value)
    | OpGet(key: Key, now: int)
    | OpHasKey(key: Key, now: int)
    | OpDelete(key: Key)
    | OpSetExpired(key: Key, date: int)
  {
    predicate InRange() {
      && (OpPut? ==> value.Fixed() && value.InRange())
      && (OpGet? || OpHasKey? ==> IsTimeT(now))
      && (OpSetExpired? ==> IsTimeT(date))
    }
  }

  predicate AllInRange(ops: seq<VolumeOp>) {
    forall op | op in ops :: op.InRange()
  }

  /** What one operation does to the map of a volume; a put must find room. */
  ghost function Step(m: map<Key, Entry>, op: VolumeOp): map<Key, Entry>
    requires op.InRange()
  {
    match op
    case OpPut(key, value) => PutIn(m, key, value)
    case OpGet(key, now) => Purged(m, key, now)
    case OpHasKey(key, now) => Purged(m, key, now)
    case OpDelete(key) => m - {key}
    case OpSetExpired(key, date) => DatedIn(m, key, FromTimeT(date))
  }

  ghost function Run(m: map<Key, Entry>, ops: seq<VolumeOp>): map<Key, Entry>
    requires AllInRange(ops)
  {
    if ops == [] then m else Step(Run(m, ops[..|ops| - 1]), ops[|ops| - 1])
  }

  lemma RunNext(m: map<Key, Entry>, ops: seq<VolumeOp>, op: VolumeOp)
    requires AllInRange(ops) && op.InRange()
    ensures AllInRange(ops + [op]) && Run(m, ops + [op]) == Step(Run(m, ops), op)
  {
    assert (ops + [op])[..|ops|] == ops;
  }

  /** Does the operation add or remove a key? */
  ghost predicate Alters(m: map<Key, Entry>, op: VolumeOp)
    requires op.InRange()
  { Step(m, op).Keys != m.Keys }

  /** Does any operation of the run? */
  ghost predicate Altered(m: map<Key, Entry>, ops: seq<VolumeOp>)
    requires AllInRange(ops)
  {
    ops != [] && (Altered(m, ops[..|ops| - 1]) || Alters(Run(m, ops[..|ops| - 1]), ops[|ops| - 1]))
  }

  lemma AlteredNext(m: map<Key, Entry>, ops: seq<VolumeOp>, op: VolumeOp)
    requires AllInRange(ops) && op.InRange()
    ensures AllInRange(ops + [op]) && (Altered(m, ops + [op]) <==> Altered(m, ops) || Alters(Run(m, ops), op))
  {
    assert (ops + [op])[..|ops|] == ops;
  }

  /** A run that starts with an empty volume and puts any value under a proper key alters it. */
  lemma {:induction false} PutAlters(ops: seq<VolumeOp>)
    requires AllInRange(ops) && exists op | op in ops :: op.OpPut? && op.key != []
    ensures Altered(map[], ops)
  {
    var init, last := ops[..|ops| - 1], ops[|ops| - 1];
    if exists op | op in init :: op.OpPut? && op.key != [] {
      PutAlters(init);
    } else if !Altered(map[], init) {
      UnalteredKeys(map[], init);
      assert ops == init + [last];
      assert last.OpPut? && last.key in Step(Run(map[], init), last);
    }
  }

  lemma {:induction false} UnalteredKeys(m: map<Key, Entry>, ops: seq<VolumeOp>)
    requires AllInRange(ops) && !Altered(m, ops)
    ensures Run(m, ops).Keys == m.Keys
  {
    if ops != [] {
      UnalteredKeys(m, ops[..|ops| - 1]);
    }
  }

  /** `performed` are the operations of the run, in order, without some of the puts. */
  ghost predicate WithoutPuts(ops: seq<VolumeOp>, performed: seq<VolumeOp>)
    decreases |ops|
  {
    if ops == [] then performed == []
    else
      var init, last := ops[..|ops| - 1], ops[|ops| - 1];
      || (performed != [] && performed[|performed| - 1] == last && WithoutPuts(init, performed[..|performed| - 1]))
      || (last.OpPut? && WithoutPuts(init, performed))
  }

  lemma WithoutNext(ops: seq<VolumeOp>, performed: seq<VolumeOp>, op: VolumeOp)
    requires WithoutPuts(ops, performed)
    ensures WithoutPuts(ops + [op], performed + [op])
    ensures op.OpPut? ==> WithoutPuts(ops + [op], performed)
  {
    assert (ops + [op])[..|ops|] == ops && (performed + [op])[..|performed|] == performed;
  }

  ghost function OpsOn(ops: seq<VolumeOp>, key: Key): seq<VolumeOp> {
    if ops == [] then []
    else OpsOn(ops[..|ops| - 1], key) + if ops[|ops| - 1].key == key then [ops[|ops| - 1]] else []
  }

  lemma {:induction false} OpsOnInRange(ops: seq<VolumeOp>, key: Key)
    requires AllInRange(ops)
    ensures AllInRange(OpsOn(ops, key)) && forall op | op in OpsOn(ops, key) :: op.key == key
  {
    if ops != [] {
      OpsOnInRange(ops[..|ops| - 1], key);
    }
  }

  ghost predicate Agree(m: map<Key, Entry>, m': map<Key, Entry>, key: Key) {
    (key in m <==> key in m') && (key in m ==> m[key] == m'[key])
  }

  /** An operation sees and changes no key but its own. */
  lemma StepIsLocal(m: map<Key, Entry>, m': map<Key, Entry>, op: VolumeOp, key: Key)
    requires op.InRange() && Agree(m, m', key)
    ensures op.key == key ==> Agree(Step(m, op), Step(m', op), key)
    ensures op.key != key ==> Agree(Step(m, op), m', key)
  {
  }

  /** After any run, what a key holds depends only on the operations that name it. */
  lemma {:induction false} KeysAreIndependent(m: map<Key, Entry>, ops: seq<VolumeOp>, key: Key)
    requires AllInRange(ops)
    ensures AllInRange(OpsOn(ops, key)) && Agree(Run(m, ops), Run(m, OpsOn(ops, key)), key)
  {
    hide Step, Agree;
    OpsOnInRange(ops, key);
    if ops == [] {
      SameAgrees(m, key);
    } else {
      var before, op := ops[..|ops| - 1], ops[|ops| - 1];
      assert ops == before + [op];
      KeysAreIndependent(m, before, key);
      OpsOnInRange(before, key);
      StepIsLocal(Run(m, before), Run(m, OpsOn(before, key)), op, key);
      if op.key == key {
        assert OpsOn(ops, key)[..|OpsOn(before, key)|] == OpsOn(before, key);
      } else {
        assert OpsOn(ops, key) == OpsOn(before, key);
      }
    }
  }

  lemma SameAgrees(m: map<Key, Entry>, key: Key)
    ensures Agree(m, m, key)
  {
  }

  /** The run neither deletes the key nor sets a date for it. */
  predicate LeavesAlone(ops: seq<VolumeOp>, key: Key) {
    forall op | op in ops :: op.key == key ==> !op.OpDelete? && !op.OpSetExpired?
  }

  /** A value without an expiry date stays over every run that leaves it alone. */
  lemma {:induction false} ValuesStay(m: map<Key, Entry>, ops: seq<VolumeOp>, key: Key)
    requires AllInRange(ops) && LeavesAlone(ops, key) && key in m && m[key].expiry == None
    ensures key in Run(m, ops) && Run(m, ops)[key] == m[key]
  {
    if ops != [] {
      ValuesStay(m, ops[..|ops| - 1], key);
      assert ops[|ops| - 1] in ops;
    }
  }

  lemma {:induction false} WithoutPutsWithin(ops: seq<VolumeOp>, performed: seq<VolumeOp>)
    requires WithoutPuts(ops, performed)
    ensures forall op | op in performed :: op in ops
  {
    if ops != [] {
      var init, last := ops[..|ops| - 1], ops[|ops| - 1];
      if performed != [] && performed[|performed| - 1] == last && WithoutPuts(init, performed[..|performed| - 1]) {
        WithoutPutsWithin(init, performed[..|performed| - 1]);
        assert performed == performed[..|performed| - 1] + [last];
      } else {
        WithoutPutsWithin(init, performed);
      }
    }
  }

  /** How many characters the keys of all puts have together: a bound on the nodes they add to the index. */
  function PutLength(ops: seq<VolumeOp>): nat {
    if ops == [] then 0
    else PutLength(ops[..|ops| - 1]) + if ops[|ops| - 1].OpPut? then |ops[|ops| - 1].key| else 0
  }

  /** A key adds at most one path for each of its characters. */
  lemma PathsGrow(paths: set<Key>, key: Key)
    requires [] in paths
    ensures |paths + AhoCorasick.Prefixes(key)| <= |paths| + |key|
  {
    var added := AhoCorasick.Prefixes(key) - paths;
    var all := set i | 0 < i <= |key| :: key[..i];
    assert key[..0] == [];
    assert added <= all;
    PrefixCount(key, |key|);
    SubsetSize(added, all);
    assert paths + AhoCorasick.Prefixes(key) == paths + added;
  }

  lemma {:induction false} PrefixCount(key: Key, n: nat)
    requires n <= |key|
    ensures |set i | 0 < i <= n :: key[..i]| <= n
  {
    if n > 0 {
      PrefixCount(key, n - 1);
      var less := set i | 0 < i <= n - 1 :: key[..i];
      assert (set i | 0 < i <= n :: key[..i]) == less + {key[..n]};
    }
  }

  lemma {:induction false} SubsetSize(a: set<Key>, b: set<Key>)
    requires a <= b
    ensures |a| <= |b|
  {
    if a != {} {
      var x :| x in a;
      SubsetSize(a - {x}, b - {x});
    }
  }
}
