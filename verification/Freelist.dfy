/** The eleven size-class free lists; the links between free blocks live on the device. */
module Freelist {
  import opened Layout

  const LIMITS: seq<nat> := [12, 16, 64, 100, 128, 256, 512, 1024, 1520, 2048, 3840]

  /** The class of a size; sizes above every limit go to the last class. */
  function BinId(size: nat): (b: nat)
    ensures b < BIN_COUNT
  {
    if size <= 12 then 0 else if size <= 16 then 1 else if size <= 64 then 2 else if size <= 100 then 3
    else if size <= 128 then 4 else if size <= 256 then 5 else if size <= 512 then 6 else if size <= 1024 then 7
    else if size <= 1520 then 8 else if size <= 2048 then 9 else 10
  }

  /** The class of a size is the first one whose limit admits it. */
  lemma BinIdIsLeast(size: nat, b: nat)
    requires b < BIN_COUNT
    ensures BinId(size) == b <==>
            (forall i | 0 <= i < b :: LIMITS[i] < size) && (size <= LIMITS[b] || b == BIN_COUNT - 1)
  {
    var c := BinId(size);
    assert size <= LIMITS[c] || c == BIN_COUNT - 1;
    assert forall i | 0 <= i < c :: LIMITS[i] < size;
  }

  /** The first non-empty class at or after `from` whose limit admits `size`, or BIN_COUNT. */
  function FirstFit(bins: seq<nat>, size: nat, from: nat): (k: nat)
    requires |bins| == BIN_COUNT && from <= BIN_COUNT
    ensures from <= k <= BIN_COUNT
    ensures k < BIN_COUNT ==> size <= LIMITS[k] && bins[k] != 0
    ensures forall i | from <= i < k :: LIMITS[i] < size || bins[i] == 0
    decreases BIN_COUNT - from
  {
    if from == BIN_COUNT || (size <= LIMITS[from] && bins[from] != 0) then from else FirstFit(bins, size, from + 1)
  }

  /** The last non-empty class below `upto`, or -1. */
  function LastUsed(bins: seq<nat>, upto: nat): (k: int)
    requires |bins| == BIN_COUNT && upto <= BIN_COUNT
    ensures -1 <= k < upto
    ensures k >= 0 ==> bins[k] != 0
    ensures forall i | 0 <= i < upto && k < i :: bins[i] == 0
  {
    if upto == 0 then -1 else if bins[upto - 1] != 0 then upto - 1 else LastUsed(bins, upto - 1)
  }

  /** The class an allocation of `size` bytes is served from, or -1. */
  function PopBin(bins: seq<nat>, size: nat): (k: int)
    requires |bins| == BIN_COUNT
    ensures -1 <= k < BIN_COUNT
    ensures k >= 0 ==> bins[k] != 0
  {
    var fit := FirstFit(bins, size, 0);
    if fit < BIN_COUNT then fit
    else if size < CLUSTER_SIZE then -1
    else if LastUsed(bins, BIN_COUNT) > 5 then LastUsed(bins, BIN_COUNT) else -1
  }

  /** Is there a block for an entry of `size` bytes? Sizes of at least a cluster may get less than they ask for. */
  predicate Serves(bins: seq<nat>, size: nat)
    requires |bins| == BIN_COUNT
  {
    || (exists i | 0 <= i < BIN_COUNT :: size <= LIMITS[i] && bins[i] != 0)
    || (size >= 3840 && exists i | 5 < i < BIN_COUNT :: bins[i] != 0)
  }

  /**
   * Which class an allocation is served from: the least one that is not empty and whose limit admits the size. If there
   * is none, sizes of at least 3840 are served from the greatest non-empty class above class 5, and all others from none.
   */
  lemma PopBinIs(bins: seq<nat>, size: nat, k: nat)
    requires |bins| == BIN_COUNT && k < BIN_COUNT
    ensures PopBin(bins, size) >= 0 <==> Serves(bins, size)
    ensures PopBin(bins, size) == k <==>
            || (size <= LIMITS[k] && bins[k] != 0 && forall i | 0 <= i < k :: LIMITS[i] < size || bins[i] == 0)
            || ((forall i | 0 <= i < BIN_COUNT :: LIMITS[i] < size || bins[i] == 0)
                && size >= 3840 && k > 5 && bins[k] != 0 && forall i | k < i < BIN_COUNT :: bins[i] == 0)
  {
    var fit, last := FirstFit(bins, size, 0), LastUsed(bins, BIN_COUNT);
    assert fit < BIN_COUNT ==> size <= LIMITS[fit] && bins[fit] != 0;
    assert last >= 0 ==> bins[last] != 0;
  }

  /**
   * A non-empty cluster class serves every size. So the volume grows only when it has no cluster left, and after
   * growing the allocation always succeeds; large sizes are never served from the three small classes.
   */
  lemma ClustersServeEverySize(bins: seq<nat>, size: nat)
    requires |bins| == BIN_COUNT
    ensures bins[10] != 0 ==> PopBin(bins, size) >= 0
    ensures size > 64 && PopBin(bins, size) >= 0 ==> PopBin(bins, size) >= 3
  {
    if FirstFit(bins, size, 0) == BIN_COUNT {
      assert size <= LIMITS[10] ==> bins[10] == 0;
    }
  }

  lemma ClusterServes(bins: seq<nat>, size: nat)
    requires |bins| == BIN_COUNT && bins[10] != 0
    ensures Serves(bins, size)
  {
    assert LIMITS[10] == 3840;
  }

  /** After a growth, the cluster class serves a size that no class has served before. */
  lemma GrowthServes(bins: seq<nat>, size: nat, head: nat)
    requires |bins| == BIN_COUNT && PopBin(bins, size) < 0 && head != 0
    ensures PopBin(bins[10 := head], size) == 10
  {
    var grown := bins[10 := head];
    if FirstFit(grown, size, 0) == BIN_COUNT {
      assert LIMITS[10] < size;
    }
    assert FirstFit(bins, size, 0) == BIN_COUNT;
  }

  /** No class after the first one that fits is ever used. */
  lemma FirstFitServes(bins: seq<nat>, size: nat, i: nat)
    requires |bins| == BIN_COUNT && i < BIN_COUNT && bins[i] != 0 && size <= LIMITS[i]
    ensures 0 <= PopBin(bins, size) <= i
  {
  }

  /** Requests for more than a simple header are never served from the two classes of simple headers. */
  lemma SmallClassesRefuse(bins: seq<nat>, size: nat)
    requires |bins| == BIN_COUNT && size > 16
    ensures PopBin(bins, size) != 0 && PopBin(bins, size) != 1
  {
  }

  class FreelistHelper {
    /** Heads of the lists; zero stands for an empty list. */
    const offsets: array<nat>

    ghost predicate Valid() {
      offsets.Length == BIN_COUNT
    }

    constructor ()
      ensures Valid() && fresh(offsets)
      ensures offsets[..] == seq(BIN_COUNT, _ => 0)
    {
      offsets := new nat[BIN_COUNT](_ => 0);
    }

    method SetBins(bins: seq<nat>)
      requires Valid() && |bins| == BIN_COUNT
      modifies offsets
      ensures offsets[..] == bins
    {
      for i := 0 to BIN_COUNT
        invariant offsets[..i] == bins[..i]
      {
        offsets[i] := bins[i];
      }
    }

    method GetBins() returns (bins: seq<nat>)
      requires Valid()
      ensures bins == offsets[..]
    {
      bins := [];
      for i := 0 to BIN_COUNT
        invariant bins == offsets[..i]
      {
        bins := bins + [offsets[i]];
      }
    }

    method PopFreeEntryOffset(size: nat) returns (offset: nat)
      requires Valid()
      modifies offsets
      ensures var k := PopBin(old(offsets[..]), size);
              if k < 0 then offset == 0 && offsets[..] == old(offsets[..])
              else offset == old(offsets[k]) && offsets[..] == old(offsets[..])[k := 0]
    {
      var less := size < CLUSTER_SIZE;
      var lastViewed := -1;
      ghost var bins := offsets[..];
      for i := 0 to BIN_COUNT
        invariant offsets[..] == bins
        invariant FirstFit(bins, size, 0) == FirstFit(bins, size, i)
        invariant !less ==> lastViewed == LastUsed(bins, i)
      {
        if size <= LIMITS[i] && offsets[i] != 0 {
          offset := offsets[i];
          offsets[i] := 0;
          return;
        }
        if !less && offsets[i] != 0 {
          lastViewed := i;
        }
      }
      if !less && lastViewed > 5 {
        offset := offsets[lastViewed];
        offsets[lastViewed] := 0;
        return;
      }
      return 0;
    }

    /** Replaces the head of the class of `size` and returns the head it had. */
    method PushFreeEntry(newOffset: nat, size: nat) returns (offset: nat)
      requires Valid()
      modifies offsets
      ensures offset == old(offsets[BinId(size)])
      ensures offsets[..] == old(offsets[..])[BinId(size) := newOffset]
    {
      var bin := GetBinIdForSize(size);
      offset := offsets[bin];
      offsets[bin] := newOffset;
    }

    method GetFreeEntry(size: nat) returns (offset: nat)
      requires Valid()
      ensures offset == offsets[BinId(size)]
    {
      var entrySize := if size > CLUSTER_SIZE then CLUSTER_SIZE else size;
      var bin := GetBinIdForSize(entrySize);
      return offsets[bin];
    }

    /** The standard lower-bound search over the limits. */
    method GetBinIdForSize(size: nat) returns (bin: nat)
      requires Valid()
      ensures bin == BinId(size)
    {
      var first: nat, count: nat := 0, BIN_COUNT;
      while count > 0
        invariant first + count <= BIN_COUNT
        invariant forall i | 0 <= i < first :: LIMITS[i] < size
        invariant forall i | first + count <= i < BIN_COUNT :: size <= LIMITS[i]
      {
        var step := count / 2;
        if size > LIMITS[first + step] {
          first, count := first + step + 1, count - step - 1;
        } else {
          count := step;
        }
      }
      if first == BIN_COUNT {
        BinIdIsLeast(size, BIN_COUNT - 1);
        return BIN_COUNT - 1;
      }
      BinIdIsLeast(size, first);
      return first;
    }
  }
}
