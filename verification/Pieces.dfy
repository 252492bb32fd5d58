/** A byte string cut into pieces, and put together again from named ones. */
module Pieces {
  import opened Bytes
  import opened Wrappers

  function Joined(pieces: seq<seq<Byte>>): seq<Byte> {
    if pieces == [] then [] else pieces[0] + Joined(pieces[1..])
  }

  lemma {:induction false} JoinedSnoc(pieces: seq<seq<Byte>>, last: seq<Byte>)
    ensures Joined(pieces + [last]) == Joined(pieces) + last
  {
    if pieces == [] {
      assert [last][1..] == [];
    } else {
      JoinedSnoc(pieces[1..], last);
      assert (pieces + [last])[1..] == pieces[1..] + [last];
      assert pieces[0] + (Joined(pieces[1..]) + last) == pieces[0] + Joined(pieces[1..]) + last;
    }
  }

  /** The pieces of these names in this order, if all are there. */
  function Assemble<Name>(find: Name -> Option<seq<Byte>>, names: seq<Name>): Option<seq<Byte>> {
    if names == [] then Some([])
    else match (find(names[0]), Assemble(find, names[1..]))
      case (Some(piece), Some(more)) => Some(piece + more)
      case _ => None
  }

  /** Every piece is found under its own name. */
  predicate Holds<Name>(find: Name -> Option<seq<Byte>>, names: seq<Name>, pieces: seq<seq<Byte>>) {
    |names| == |pieces| && forall i :: 0 <= i < |names| ==> find(names[i]) == Some(pieces[i])
  }

  lemma {:induction false} AssembleAll<Name>(find: Name -> Option<seq<Byte>>, names: seq<Name>, pieces: seq<seq<Byte>>)
    requires Holds(find, names, pieces)
    ensures Assemble(find, names) == Some(Joined(pieces))
    decreases |names|
  {
    if names != [] { AssembleAll(find, names[1..], pieces[1..]); }
  }
}
