/** Which diskdb instance gets a new disk group: the one that owns the fewest. */
module OwnerAssign {
  import opened Options

  datatype Owner = Owner(diskGroup: nat, instance: nat)

  function Load(owners: seq<Owner>, id: nat): nat {
    if owners == [] then 0
    else Load(owners[..|owners| - 1], id) + (if owners[|owners| - 1].instance == id then 1 else 0)
  }

  /** No instance of the list owns fewer, and among those that own as few none has a
      lower id. */
  ghost predicate LeastLoaded(ids: seq<nat>, owners: seq<Owner>, p: nat) {
    p in ids && forall id :: id in ids ==>
      Load(owners, p) < Load(owners, id) || (Load(owners, p) == Load(owners, id) && p <= id)
  }

  method PickLeastLoaded(ids: seq<nat>, owners: seq<Owner>) returns (r: Option<nat>)
    ensures r == None <==> ids == []
    ensures r.Some? ==> LeastLoaded(ids, owners, r.value)
  {
    if ids == [] { return None; }
    var counts: map<nat, nat> := map[];
    for i := 0 to |owners|
      invariant forall id :: (if id in counts then counts[id] else 0) == Load(owners[..i], id)
    {
      assert owners[..i + 1][..i] == owners[..i];
      var o := owners[i].instance;
      counts := counts[o := (if o in counts then counts[o] else 0) + 1];
    }
    assert owners[..|owners|] == owners;
    var best := ids[0];
    var least := if best in counts then counts[best] else 0;
    for i := 1 to |ids|
      invariant best in ids && least == Load(owners, best) && LeastLoaded(ids[..i], owners, best)
    {
      var count := if ids[i] in counts then counts[ids[i]] else 0;
      if count < least || (count == least && ids[i] < best) {
        best, least := ids[i], count;
      }
      assert ids[..i + 1] == ids[..i] + [ids[i]];
    }
    assert ids[..|ids|] == ids;
    r := Some(best);
  }

  /** The pick depends on which instances are listed, not on their order. */
  lemma PickIgnoresOrder(ids: seq<nat>, ids': seq<nat>, owners: seq<Owner>, p: nat, p': nat)
    requires forall id :: id in ids <==> id in ids'
    requires LeastLoaded(ids, owners, p) && LeastLoaded(ids', owners, p')
    ensures p == p'
  {
    assert p in ids' && p' in ids;
  }

  // ---- Balance --------------------------------------------------------

  /** No instance owns more than `k` disk groups more than another. */
  ghost predicate Spread(ids: seq<nat>, owners: seq<Owner>, k: nat) {
    forall a, b :: a in ids && b in ids ==> Load(owners, a) <= Load(owners, b) + k
  }

  predicate Owned(owners: seq<Owner>, diskGroup: nat) {
    exists i :: 0 <= i < |owners| && owners[i].diskGroup == diskGroup
  }

  ghost predicate OwnedBy(owners: seq<Owner>, diskGroup: nat, ids: seq<nat>) {
    exists o :: o in owners && o.diskGroup == diskGroup && o.instance in ids
  }

  /** Where the disk group's entry is, or would be appended. */
  function EntryOf(owners: seq<Owner>, diskGroup: nat): (i: nat)
    ensures i <= |owners| && (i < |owners| <==> Owned(owners, diskGroup))
    ensures i < |owners| ==> owners[i].diskGroup == diskGroup
    ensures forall j :: 0 <= j < i ==> owners[j].diskGroup != diskGroup
  {
    if owners == [] || owners[0].diskGroup == diskGroup then 0
    else
      var i := 1 + EntryOf(owners[1..], diskGroup);
      assert forall j :: 0 < j < i ==> owners[j] == owners[1..][j - 1];
      assert i < |owners| ==> owners[i] == owners[1..][i - 1];
      i
  }

  /** The registry with the disk group given to the instance. */
  function Assigned(owners: seq<Owner>, diskGroup: nat, instance: nat): seq<Owner> {
    var i := EntryOf(owners, diskGroup);
    if i < |owners| then owners[i := Owner(diskGroup, instance)] else owners + [Owner(diskGroup, instance)]
  }

  /** The load of an instance is the number of entries that name it. */
  lemma {:induction false} LoadCounts(owners: seq<Owner>, id: nat)
    ensures Load(owners, id) == |set i: nat | i < |owners| && owners[i].instance == id|
  {
    if owners != [] {
      var k := |owners| - 1;
      LoadCounts(owners[..k], id);
      var rest := set i: nat | i < k && owners[..k][i].instance == id;
      assert (set i: nat | i < |owners| && owners[i].instance == id) ==
             if owners[k].instance == id then rest + {k} else rest;
    }
  }

  lemma AppendLoad(owners: seq<Owner>, o: Owner, id: nat)
    ensures Load(owners + [o], id) == Load(owners, id) + if o.instance == id then 1 else 0
  {
    assert (owners + [o])[..|owners|] == owners;
  }

  lemma {:induction false} ReplaceLoad(owners: seq<Owner>, i: nat, o: Owner, id: nat)
    requires i < |owners|
    ensures Load(owners[i := o], id) + (if owners[i].instance == id then 1 else 0)
         == Load(owners, id) + if o.instance == id then 1 else 0
  {
    var n := |owners| - 1;
    if i < n {
      ReplaceLoad(owners[..n], i, o, id);
      assert owners[i := o][..n] == owners[..n][i := o];
    } else {
      assert owners[i := o][..n] == owners[..n];
    }
  }

  /** Whether moving the disk group to the least loaded `p` leaves room for a spread of
      `k`: it is new, or owned by an instance not listed or by `p`, or its owner can
      lose it and still be within `k` of all others. */
  ghost predicate Roomy(ids: seq<nat>, owners: seq<Owner>, diskGroup: nat, p: nat, k: nat) {
    var i := EntryOf(owners, diskGroup);
    if i == |owners| then true
    else
      var q := owners[i].instance;
      || q !in ids || p == q
      || (&& Load(owners, p) + 2 <= Load(owners, q) + k
          && forall a :: a in ids && a != p && a != q ==> Load(owners, a) < Load(owners, q) + k)
  }

  lemma AssignedLoad(owners: seq<Owner>, diskGroup: nat, p: nat, id: nat)
    ensures var i := EntryOf(owners, diskGroup);
      Load(Assigned(owners, diskGroup, p), id) + (if i < |owners| && owners[i].instance == id then 1 else 0)
      == Load(owners, id) + if p == id then 1 else 0
  {
    var i, o := EntryOf(owners, diskGroup), Owner(diskGroup, p);
    if i < |owners| { ReplaceLoad(owners, i, o, id); } else { AppendLoad(owners, o, id); }
  }

  /** Giving a disk group to the least loaded instance keeps a spread from 1 up exactly
      when there is room. */
  lemma AssignKeepsSpreadIff(ids: seq<nat>, owners: seq<Owner>, diskGroup: nat, p: nat, k: nat)
    requires k >= 1 && Spread(ids, owners, k) && LeastLoaded(ids, owners, p)
    ensures Spread(ids, Assigned(owners, diskGroup, p), k) <==> Roomy(ids, owners, diskGroup, p, k)
  {
    var now, i := Assigned(owners, diskGroup, p), EntryOf(owners, diskGroup);
    forall id ensures Load(now, id) + (if i < |owners| && owners[i].instance == id then 1 else 0)
                   == Load(owners, id) + if p == id then 1 else 0
    {
      AssignedLoad(owners, diskGroup, p, id);
    }
    if Roomy(ids, owners, diskGroup, p, k) {
      forall a, b | a in ids && b in ids ensures Load(now, a) <= Load(now, b) + k {
        assert Load(owners, a) <= Load(owners, b) + k && Load(owners, p) <= Load(owners, b);
      }
    } else {
      NoRoom(ids, owners, diskGroup, p, k, now);
    }
  }

  lemma NoRoom(ids: seq<nat>, owners: seq<Owner>, diskGroup: nat, p: nat, k: nat, now: seq<Owner>)
    requires p in ids && !Roomy(ids, owners, diskGroup, p, k)
    requires var i := EntryOf(owners, diskGroup);
      forall id :: Load(now, id) + (if i < |owners| && owners[i].instance == id then 1 else 0)
                   == Load(owners, id) + if p == id then 1 else 0
    ensures !Spread(ids, now, k)
  {
    var q := owners[EntryOf(owners, diskGroup)].instance;
    if Load(owners, p) + 2 <= Load(owners, q) + k {
      var a :| a in ids && a != p && a != q && Load(owners, a) >= Load(owners, q) + k;
      assert Load(now, a) > Load(now, q) + k;
    } else {
      assert Load(now, p) > Load(now, q) + k;
    }
  }

  /** Assigning two disk groups to two instances and then the second one again ends with
      both on one instance, whatever is picked each time. */
  lemma ReassigningUnbalances(p: nat, q: nat, s: nat)
    requires LeastLoaded([1, 2], [], p)
    requires LeastLoaded([1, 2], Assigned([], 7, p), q)
    requires LeastLoaded([1, 2], Assigned(Assigned([], 7, p), 8, q), s)
    ensures var balanced := Assigned(Assigned([], 7, p), 8, q);
      Spread([1, 2], balanced, 0) && !Spread([1, 2], Assigned(balanced, 8, s), 1)
  {
    var first := Assigned([], 7, p);
    var balanced := Assigned(first, 8, q);
    assert 1 in [1, 2] && 2 in [1, 2];
    assert EntryOf(first, 8) == 1;
    assert balanced[1] == Owner(8, q) && EntryOf(balanced, 8) == 1;
    AssignedLoad([], 7, p, 1);
    AssignedLoad([], 7, p, 2);
    AssignedLoad(first, 8, q, 1);
    AssignedLoad(first, 8, q, 2);
    AssignedLoad(balanced, 8, s, 1);
    AssignedLoad(balanced, 8, s, 2);
  }

  class OwnerRegistry {
    var owners: seq<Owner>

    /** One entry per disk group. */
    ghost predicate Valid()
      reads this
    {
      forall i, j :: 0 <= i < j < |owners| ==> owners[i].diskGroup != owners[j].diskGroup
    }

    method SetOwner(diskGroup: nat, instance: nat)
      requires Valid()
      modifies this
      ensures Valid() && owners == Assigned(old(owners), diskGroup, instance)
      ensures Owned(owners, diskGroup)
      ensures forall o :: o in owners <==>
        (o in old(owners) && o.diskGroup != diskGroup) || o == Owner(diskGroup, instance)
    {
      var i := 0;
      while i < |owners| && owners[i].diskGroup != diskGroup
        invariant i <= |owners| && forall j :: 0 <= j < i ==> owners[j].diskGroup != diskGroup
      {
        i := i + 1;
      }
      ghost var before := owners;
      var entry := Owner(diskGroup, instance);
      owners := if i < |owners| then owners[i := entry] else owners + [entry];
      assert EntryOf(before, diskGroup) == i;
      assert owners[i] == entry;
      forall o | o in before && o.diskGroup != diskGroup ensures o in owners {
        var j :| 0 <= j < |before| && before[j] == o;
        assert owners[j] == o;
      }
    }

    /** Does nothing when no instance is registered. */
    method AutoAssign(ids: seq<nat>, diskGroup: nat)
      requires Valid()
      modifies this
      ensures Valid()
      ensures ids == [] ==> owners == old(owners)
      ensures ids != [] ==> exists p ::
        && LeastLoaded(ids, old(owners), p) && owners == Assigned(old(owners), diskGroup, p)
        && forall k: nat :: k >= 1 && Spread(ids, old(owners), k) ==>
             (Spread(ids, owners, k) <==> Roomy(ids, old(owners), diskGroup, p, k))
      ensures ids != [] ==> OwnedBy(owners, diskGroup, ids)
      ensures forall o: Owner :: o.diskGroup != diskGroup ==> (o in owners <==> o in old(owners))
      ensures forall d :: d != diskGroup && !Owned(old(owners), d) ==> !Owned(owners, d)
    {
      if ids == [] { return; }
      var pick := PickLeastLoaded(ids, owners);
      SetOwner(diskGroup, pick.value);
      forall k: nat | k >= 1 && Spread(ids, old(owners), k)
        ensures Spread(ids, owners, k) <==> Roomy(ids, old(owners), diskGroup, pick.value, k)
      {
        AssignKeepsSpreadIff(ids, old(owners), diskGroup, pick.value, k);
      }
      forall d | d != diskGroup && Owned(owners, d) ensures Owned(old(owners), d) {
        var i :| 0 <= i < |owners| && owners[i].diskGroup == d;
        assert owners[i] in old(owners);
      }
    }

    method AssignTwiceExample()
      requires owners == []
      modifies this
      ensures !Spread([1, 2], owners, 1)
    {
      ghost var empty := owners;
      AutoAssign([1, 2], 7);
      ghost var p :| LeastLoaded([1, 2], empty, p) && owners == Assigned(empty, 7, p);
      ghost var first := owners;
      AutoAssign([1, 2], 8);
      ghost var q :| LeastLoaded([1, 2], first, q) && owners == Assigned(first, 8, q);
      ghost var second := owners;
      AutoAssign([1, 2], 8);
      ghost var s :| LeastLoaded([1, 2], second, s) && owners == Assigned(second, 8, s);
      ReassigningUnbalances(p, q, s);
    }

    /** New disk groups one after another: each ends up with a listed instance, those
        owned before stay where they were, and the spread never exceeds what it was, or 1. */
    method AssignAll(ids: seq<nat>, diskGroups: seq<nat>)
      requires Valid()
      requires forall i, j :: 0 <= i < j < |diskGroups| ==> diskGroups[i] != diskGroups[j]
      requires forall d :: d in diskGroups ==> !Owned(owners, d)
      modifies this
      ensures Valid()
      ensures forall k: nat :: Spread(ids, old(owners), k) ==> Spread(ids, owners, if k >= 1 then k else 1)
      ensures forall o: Owner :: o.diskGroup !in diskGroups ==> (o in owners <==> o in old(owners))
      ensures ids != [] ==> forall d :: d in diskGroups ==> OwnedBy(owners, d, ids)
    {
      for i := 0 to |diskGroups|
        invariant Valid()
        invariant forall j :: i <= j < |diskGroups| ==> !Owned(owners, diskGroups[j])
        invariant forall o: Owner :: o.diskGroup !in diskGroups ==> (o in owners <==> o in old(owners))
        invariant ids != [] ==> forall j :: 0 <= j < i ==> OwnedBy(owners, diskGroups[j], ids)
        invariant forall k: nat :: Spread(ids, old(owners), k) ==> Spread(ids, owners, if k >= 1 then k else 1)
      {
        ghost var before := owners;
        AutoAssign(ids, diskGroups[i]);
        forall j | 0 <= j < i && ids != [] ensures OwnedBy(owners, diskGroups[j], ids) {
          var o :| o in before && o.diskGroup == diskGroups[j] && o.instance in ids;
          assert o in owners;
        }
      }
    }
  }
}
