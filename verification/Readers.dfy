/** A byte source that hands out pieces of any size and may fail at any byte. */
module Readers {
  import opened Wrappers
  import opened Bytes

  class Reader {
    var unread: seq<Byte>
    /** How many reads have failed. */
    ghost var faults: nat

    constructor (payload: seq<Byte>)
      ensures unread == payload && faults == 0
    {
      unread, faults := payload, 0;
    }

    /** `None` is a failed read; an empty piece is the end. */
    method Read(limit: nat) returns (piece: Option<seq<Byte>>)
      requires limit > 0
      modifies this
      ensures piece.None? ==> unread == old(unread)
      ensures faults == old(faults) + if piece.None? then 1 else 0
      ensures piece.Some? ==> old(unread) == piece.value + unread && |piece.value| <= limit
      ensures piece == Some([]) ==> unread == []
    {
      if * {
        faults := faults + 1;
        return None;
      }
      if unread == [] { return Some([]); }
      var n: nat :| 0 < n <= limit && n <= |unread|;
      piece := Some(unread[..n]);
      unread := unread[n..];
    }

    /** Read into the part of a buffer from `start` on. */
    method ReadInto(buffer: array<Byte>, start: nat) returns (count: Option<nat>)
      requires start < buffer.Length
      modifies this, buffer
      ensures count.None? ==> unread == old(unread)
      ensures faults == old(faults) + if count.None? then 1 else 0
      ensures count.Some? ==> count.value <= |old(unread)| && start + count.value <= buffer.Length
      ensures count.Some? ==> unread == old(unread)[count.value..]
      ensures count.Some? ==> buffer[..start + count.value] == old(buffer[..start]) + old(unread)[..count.value]
      ensures count == Some(0) ==> unread == []
    {
      var piece := Read(buffer.Length - start);
      if piece.None? { return None; }
      var n := |piece.value|;
      forall i | 0 <= i < n {
        buffer[start + i] := piece.value[i];
      }
      count := Some(n);
    }
  }
}
