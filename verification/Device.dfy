/** The byte-vector device under everything else. */
module Device {
  import opened Bytes
  import opened Errors

  class TestDevice {
    var storage: seq<byte>
    /** The greatest size the backing vector can be grown to. */
    const capacity: nat

    ghost predicate Valid()
      reads this
    {
      |storage| <= capacity < U64
    }

    constructor (capacity: nat)
      requires capacity < U64
      ensures Valid() && storage == [] && this.capacity == capacity
    {
      this.capacity := capacity;
      storage := [];
    }

    /** Copies `size` bytes from `position`; fails when the range runs past the end. */
    method Read(position: nat, size: nat) returns (r: Result<seq<byte>>)
      ensures r.Ok? <==> position + size <= |storage|
      ensures r.Ok? ==> r.value == storage[position..position + size]
      ensures r.Err? ==> r.error == DeviceReadError
    {
      if position + size > |storage| {
        return Err(DeviceReadError);
      }
      return Ok(storage[position..position + size]);
    }

    /** Writes `data` at `position` with an overwriting loop followed by an appending loop. */
    method Write(position: nat, data: seq<byte>) returns (r: Result<nat>)
      requires Valid()
      modifies this
      ensures Valid()
      ensures r.Ok? <==> position <= old(|storage|) && position + |data| <= capacity
      ensures r.Ok? ==> r.value == |data| && storage == Splice(old(storage), position, data)
      ensures r.Err? ==> storage == old(storage)
      ensures r.Err? ==> r.error == if position > |storage| then DeviceWriteError else UnknownExceptionType
    {
      if position > |storage| {
        return Err(DeviceWriteError);
      }
      // growing the vector past its maximum throws a length error
      if position + |data| > capacity {
        return Err(UnknownExceptionType);
      }

      var size := |storage|;
      if position == size {
        for i := 0 to |data|
          invariant storage == Splice(old(storage), position, data[..i])
        {
          SpliceAppend(old(storage), position, data, i);
          storage := storage + [data[i]];
        }
        assert data[..|data|] == data;
        return Ok(|data|);
      }

      var stop := if position + |data| > size then size else position + |data|;
      var i := position;
      var j := 0;
      while i != stop
        invariant position <= i <= stop && j == i - position
        invariant storage == Splice(old(storage), position, data[..j])
        decreases stop - i
      {
        SpliceOverwrite(old(storage), position, data, j);
        storage := storage[i := data[j]];
        i, j := i + 1, j + 1;
      }
      if stop != size {
        assert data[..j] == data;
        return Ok(|data|);
      }
      while j != |data|
        invariant size - position <= j <= |data|
        invariant storage == Splice(old(storage), position, data[..j])
        decreases |data| - j
      {
        SpliceAppend(old(storage), position, data, j);
        storage := storage + [data[j]];
        j := j + 1;
      }
      assert data[..j] == data;
      return Ok(|data|);
    }
  }

  /** One step of the overwriting loop. */
  lemma SpliceOverwrite(s: seq<byte>, pos: nat, data: seq<byte>, j: nat)
    requires pos <= |s| && j < |data| && pos + j < |s|
    ensures |Splice(s, pos, data[..j])| == |s|
    ensures Splice(s, pos, data[..j])[pos + j := data[j]] == Splice(s, pos, data[..j + 1])
  {
    assert data[..j + 1] == data[..j] + [data[j]];
    var r := Splice(s, pos, data[..j])[pos + j := data[j]];
    assert r == s[..pos] + data[..j] + [data[j]] + s[pos + j + 1..];
  }

  /** One step of the appending loop. */
  lemma SpliceAppend(s: seq<byte>, pos: nat, data: seq<byte>, j: nat)
    requires pos <= |s| <= pos + j && j < |data|
    ensures Splice(s, pos, data[..j]) + [data[j]] == Splice(s, pos, data[..j + 1])
  {
    assert data[..j + 1] == data[..j] + [data[j]];
  }

  /** A read of a range just written returns the bytes written. */
  lemma ReadBack(s: seq<byte>, position: nat, data: seq<byte>)
    requires position <= |s|
    ensures position + |data| <= |Splice(s, position, data)|
    ensures Splice(s, position, data)[position..position + |data|] == data
  {
    SpliceAt(s, position, data);
  }
}
