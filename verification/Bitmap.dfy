/** The zone usage bitmap: one bit per block unit.

`range_set` and `range_clear` walk the range bit by bit and undo their own
work when they meet a bit that is already in the target state, so each is
all-or-nothing.  `SetRange` and `ClearRange` say that on plain sets of units;
the loops below are proved against them. */
module Bitmap {

  predicate Within(u: nat, off: nat, len: nat) {
    off <= u < off + len
  }

  /** The units of the extent `[off, off + len)`. */
  function Units(off: nat, len: nat): set<nat> {
    set u: nat {:trigger Within(u, off, len)} | off <= u < off + len && Within(u, off, len)
  }

  function SetRange(b: set<nat>, off: nat, len: nat): set<nat> {
    if Units(off, len) !! b then b + Units(off, len) else b
  }

  function ClearRange(b: set<nat>, off: nat, len: nat): set<nat> {
    if Units(off, len) <= b then b - Units(off, len) else b
  }

  /** After `SetRange` the extent is covered exactly when it was not partly
      covered before: the one case in which a replayed block is lost. */
  lemma SetRangeCoversIff(b: set<nat>, off: nat, len: nat)
    ensures Units(off, len) <= SetRange(b, off, len)
            <==> Units(off, len) !! b || Units(off, len) <= b
  {
  }

  /** Clearing an extent spares the units in `live` exactly when it is apart from
      them, or is not fully set and so not cleared at all. */
  lemma ClearRangeSparesIff(b: set<nat>, off: nat, len: nat, live: set<nat>)
    requires live <= b
    ensures live <= ClearRange(b, off, len) <==> Units(off, len) !! live || !(Units(off, len) <= b)
  {
  }

  /** Claiming a clear range and rolling the claim back is the identity. */
  lemma ClearUndoesSet(b: set<nat>, off: nat, len: nat)
    requires Units(off, len) !! b
    ensures ClearRange(SetRange(b, off, len), off, len) == b
  {
    assert b + Units(off, len) - Units(off, len) == b;
  }

  /** `UsageBitmap`: the bits, updated in place. */
  class UsageBitmap {
    const bits: array<bool>

    /** The set bits. */
    ghost function View(): set<nat>
      reads bits
    {
      set u: nat | u < bits.Length && bits[u]
    }

    constructor (blockCount: nat)
      ensures fresh(bits) && bits.Length == blockCount && View() == {}
      ensures forall k :: 0 <= k < blockCount ==> !bits[k]
    {
      bits := new bool[blockCount](_ => false);
    }

    method RangeSet(off: nat, count: nat) returns (ok: bool)
      requires off + count <= bits.Length
      modifies bits
      ensures ok <==> Units(off, count) !! old(View())
      ensures View() == SetRange(old(View()), off, count)
      ensures ok <==> forall k :: off <= k < off + count ==> !old(bits[k])
      ensures forall k :: 0 <= k < bits.Length ==> bits[k] == (old(bits[k]) || (ok && off <= k < off + count))
    {
      var i := 0;
      while i < count
        invariant i <= count
        invariant forall k :: 0 <= k < bits.Length ==> bits[k] == (old(bits[k]) || off <= k < off + i)
        invariant forall k :: off <= k < off + i ==> !old(bits[k])
      {
        if bits[off + i] {
          assert off + i in Units(off, count) * old(View());
          UndoTo(off, i, false);
          assert View() == old(View());
          return false;
        }
        bits[off + i] := true;
        i := i + 1;
      }
      return true;
    }

    method RangeClear(off: nat, count: nat) returns (ok: bool)
      requires off + count <= bits.Length
      modifies bits
      ensures ok <==> Units(off, count) <= old(View())
      ensures View() == ClearRange(old(View()), off, count)
      ensures ok <==> forall k :: off <= k < off + count ==> old(bits[k])
      ensures forall k :: 0 <= k < bits.Length ==> bits[k] == (old(bits[k]) && !(ok && off <= k < off + count))
    {
      var i := 0;
      while i < count
        invariant i <= count
        invariant forall k :: 0 <= k < bits.Length ==> bits[k] == (old(bits[k]) && !(off <= k < off + i))
        invariant forall k :: off <= k < off + i ==> old(bits[k])
      {
        if !bits[off + i] {
          assert off + i in Units(off, count) && off + i !in old(View());
          UndoTo(off, i, true);
          assert View() == old(View());
          return false;
        }
        bits[off + i] := false;
        i := i + 1;
      }
      return true;
    }

    /** The roll-back loop both operations share. */
    method UndoTo(off: nat, i: nat, value: bool)
      requires off + i <= bits.Length
      modifies bits
      ensures forall k :: 0 <= k < bits.Length ==>
        bits[k] == if off <= k < off + i then value else old(bits[k])
    {
      for j := 0 to i
        invariant forall k :: 0 <= k < bits.Length ==>
          bits[k] == if off <= k < off + j then value else old(bits[k])
      {
        bits[off + j] := value;
      }
    }
  }
}
