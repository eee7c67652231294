/** Copying packed structures to and from byte buffers through cursors. */
module Serialization {
  import opened Bytes

  /** Copies `data` to the cursor; a buffer that is too short is left alone and the cursor goes to its end. */
  function SaveAsBytes(buffer: seq<byte>, cursor: nat, data: seq<byte>): (r: (seq<byte>, nat))
    requires cursor <= |buffer|
    ensures |r.0| == |buffer| && cursor <= r.1 <= |buffer|
  {
    if |buffer| - cursor < |data| then (buffer, |buffer|)
    else (Splice(buffer, cursor, data), cursor + |data|)
  }

  /** The cursor after loading `size` bytes: a buffer that is too short leaves it where it was. */
  function LoadFromBytes(buffer: seq<byte>, cursor: nat, size: nat): (next: nat)
    requires cursor <= |buffer|
    ensures cursor <= next <= |buffer|
    ensures next == cursor <==> size == 0 || |buffer| - cursor < size
  {
    if |buffer| - cursor < size then cursor else cursor + size
  }

  /**
   * What has been saved at a cursor is what loading there reads, and both cursors move on alike. If the buffer is too
   * short, saving moves the cursor to the end and loading leaves it, and nothing is saved or loaded.
   */
  lemma SavedLoads(buffer: seq<byte>, cursor: nat, data: seq<byte>)
    requires cursor <= |buffer|
    ensures var (buffer', next) := SaveAsBytes(buffer, cursor, data);
            if cursor + |data| <= |buffer|
            then && next == cursor + |data| == LoadFromBytes(buffer', cursor, |data|) && buffer'[cursor..next] == data
                 && buffer'[..cursor] == buffer[..cursor] && buffer'[next..] == buffer[next..]
            else buffer' == buffer && next == |buffer| && LoadFromBytes(buffer', cursor, |data|) == cursor
  {
  }
}
