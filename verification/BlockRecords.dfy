/** The block records of a data group and the atomic batches that write them.

Allocating puts the busy key and deletes the free key of an offset; freeing
does the reverse; a compaction puts the zone snapshot and deletes free keys. */
module BlockRecords {

  datatype Loc = Loc(disk: nat, zone: nat, off: nat)

  datatype Key = BusyKey(loc: Loc) | FreeKey(loc: Loc) | ZoneKey(disk: nat, zone: nat)

  datatype BatchOp<V> = Put(key: Key, value: V) | Delete(key: Key)

  datatype Record<V> = Record(loc: Loc, value: V)

  function ApplyOp<V>(data: map<Key, V>, op: BatchOp<V>): map<Key, V> {
    match op
    case Put(k, v) => data[k := v]
    case Delete(k) => data - {k}
  }

  function ApplyBatch<V>(data: map<Key, V>, ops: seq<BatchOp<V>>): map<Key, V> {
    if ops == [] then data else ApplyOp(ApplyBatch(data, ops[..|ops| - 1]), ops[|ops| - 1])
  }

  /** The single writes. */
  function WriteBusy<V>(data: map<Key, V>, r: Record<V>): map<Key, V> {
    data[BusyKey(r.loc) := r.value] - {FreeKey(r.loc)}
  }

  function WriteFree<V>(data: map<Key, V>, r: Record<V>): map<Key, V> {
    (data - {BusyKey(r.loc)})[FreeKey(r.loc) := r.value]
  }

  function Write<V>(busy: bool, data: map<Key, V>, r: Record<V>): map<Key, V> {
    if busy then WriteBusy(data, r) else WriteFree(data, r)
  }

  function WriteAll<V>(busy: bool, data: map<Key, V>, rs: seq<Record<V>>): map<Key, V> {
    if rs == [] then data else Write(busy, WriteAll(busy, data, rs[..|rs| - 1]), rs[|rs| - 1])
  }

  /** No offset is both busy and free. */
  ghost predicate Exclusive<V>(data: map<Key, V>) {
    forall l :: BusyKey(l) in data ==> FreeKey(l) !in data
  }

  // ---- The client -----------------------------------------------------

  class DdbKv<V> {
    /** Whether every call succeeds. */
    const reliable: bool
    var data: map<Key, V>

    constructor (reliable: bool)
      ensures data == map[] && this.reliable == reliable
    {
      this.reliable := reliable;
      data := map[];
    }

    /** All of the batch or none of it; a batch that reports an error may have been
        applied. */
    method BatchWrite(ops: seq<BatchOp<V>>) returns (ok: bool)
      modifies this
      ensures data == ApplyBatch(old(data), ops) || (!ok && data == old(data))
      ensures reliable ==> ok
    {
      ok := *;
      if !ok && !reliable { return; }  // never reached the group
      for i := 0 to |ops|
        invariant data == ApplyBatch(old(data), ops[..i])
      {
        assert ops[..i + 1][..i] == ops[..i];
        data := ApplyOp(data, ops[i]);
      }
      assert ops[..|ops|] == ops;
      ok := *;
      ok := ok || reliable;  // applied, the answer may be lost
    }

    method PersistBusyBatch(rs: seq<Record<V>>) returns (ok: bool)
      modifies this
      ensures data == WriteAll(true, old(data), rs) || (!ok && data == old(data))
      ensures reliable ==> ok
      ensures old(Exclusive(data)) ==> Exclusive(data)
    {
      var ops: seq<BatchOp<V>> := [];
      for i := 0 to |rs|
        invariant data == old(data)
        invariant ApplyBatch(data, ops) == WriteAll(true, data, rs[..i])
      {
        assert rs[..i + 1][..i] == rs[..i];
        Extend(data, ops, Put(BusyKey(rs[i].loc), rs[i].value), Delete(FreeKey(rs[i].loc)));
        ops := ops + [Put(BusyKey(rs[i].loc), rs[i].value), Delete(FreeKey(rs[i].loc))];
      }
      assert rs[..|rs|] == rs;
      ok := BatchWrite(ops);
      if old(Exclusive(data)) { BatchKeepsExclusive(true, old(data), rs); }
    }

    method PersistFreeBatch(rs: seq<Record<V>>) returns (ok: bool)
      modifies this
      ensures data == WriteAll(false, old(data), rs) || (!ok && data == old(data))
      ensures reliable ==> ok
      ensures old(Exclusive(data)) ==> Exclusive(data)
    {
      var ops: seq<BatchOp<V>> := [];
      for i := 0 to |rs|
        invariant data == old(data)
        invariant ApplyBatch(data, ops) == WriteAll(false, data, rs[..i])
      {
        assert rs[..i + 1][..i] == rs[..i];
        Extend(data, ops, Delete(BusyKey(rs[i].loc)), Put(FreeKey(rs[i].loc), rs[i].value));
        ops := ops + [Delete(BusyKey(rs[i].loc)), Put(FreeKey(rs[i].loc), rs[i].value)];
      }
      assert rs[..|rs|] == rs;
      ok := BatchWrite(ops);
      if old(Exclusive(data)) { BatchKeepsExclusive(false, old(data), rs); }
    }

    /** Snapshot and free-record deletes, together or not at all. */
    method CompactZoneBatch(disk: nat, zone: nat, value: V, freed: seq<Loc>) returns (ok: bool)
      modifies this
      ensures data == Compacted(old(data), disk, zone, value, freed) || (!ok && data == old(data))
      ensures SnapshotPut(old(data), data, disk, zone, value, freed) || (!ok && data == old(data))
      ensures reliable ==> ok
      ensures old(Exclusive(data)) ==> Exclusive(data)
    {
      var ops := [Put(ZoneKey(disk, zone), value)];
      assert ops[..0] == [];
      for i := 0 to |freed|
        invariant data == old(data)
        invariant ApplyBatch(data, ops) == Compacted(data, disk, zone, value, freed[..i])
      {
        assert freed[..i + 1] == freed[..i] + [freed[i]];
        var ops' := ops + [Delete(FreeKey(freed[i]))];
        assert ops'[..|ops|] == ops;
        ops := ops';
      }
      assert freed[..|freed|] == freed;
      CompactionPutsSnapshot(data, disk, zone, value, freed);
      ok := BatchWrite(ops);
    }
  }

  /** What an applied compaction leaves: the snapshot under its key, no listed free
      key, every other key as it was. */
  ghost predicate SnapshotPut<V>(before: map<Key, V>, now: map<Key, V>, disk: nat, zone: nat, value: V,
                                 freed: seq<Loc>)
  {
    && ZoneKey(disk, zone) in now && now[ZoneKey(disk, zone)] == value
    && (forall l :: l in freed ==> FreeKey(l) !in now)
    && (forall l :: l !in freed ==> SameAt(now, before, FreeKey(l)))
    && (forall l :: SameAt(now, before, BusyKey(l)))
    && (forall d, z :: d != disk || z != zone ==> SameAt(now, before, ZoneKey(d, z)))
  }

  function Compacted<V>(data: map<Key, V>, disk: nat, zone: nat, value: V, freed: seq<Loc>): map<Key, V> {
    data[ZoneKey(disk, zone) := value] - (set l | l in freed :: FreeKey(l))
  }

  lemma Extend<V>(data: map<Key, V>, ops: seq<BatchOp<V>>, a: BatchOp<V>, b: BatchOp<V>)
    ensures ApplyBatch(data, ops + [a, b]) == ApplyOp(ApplyOp(ApplyBatch(data, ops), a), b)
  {
    assert (ops + [a, b])[..|ops| + 1] == ops + [a];
    assert (ops + [a])[..|ops|] == ops;
  }

  // ---- What every batch keeps -----------------------------------------

  lemma {:induction false} BatchKeepsExclusive<V>(busy: bool, data: map<Key, V>, rs: seq<Record<V>>)
    requires Exclusive(data)
    ensures Exclusive(WriteAll(busy, data, rs))
  {
    if rs != [] { BatchKeepsExclusive(busy, data, rs[..|rs| - 1]); }
  }

  /** A compaction, key by key; busy and free keys stay apart. */
  lemma CompactionPutsSnapshot<V>(data: map<Key, V>, disk: nat, zone: nat, value: V, freed: seq<Loc>)
    ensures SnapshotPut(data, Compacted(data, disk, zone, value, freed), disk, zone, value, freed)
    ensures Exclusive(data) ==> Exclusive(Compacted(data, disk, zone, value, freed))
  {
    var now := Compacted(data, disk, zone, value, freed);
    forall l | l in freed ensures FreeKey(l) !in now {}
    forall l | l !in freed ensures SameAt(now, data, FreeKey(l)) {}
  }

  /** A batch is determined by what it leaves under each key. */
  lemma SnapshotDetermined<V>(before: map<Key, V>, a: map<Key, V>, b: map<Key, V>, disk: nat, zone: nat, value: V,
                              freed: seq<Loc>)
    requires SnapshotPut(before, a, disk, zone, value, freed) && SnapshotPut(before, b, disk, zone, value, freed)
    ensures a == b
  {
    forall k ensures (k in a <==> k in b) && (k in a ==> a[k] == b[k]) {
      match k
      case BusyKey(l) => assert SameAt(a, before, k) && SameAt(b, before, k);
      case FreeKey(l) =>
        if l in freed { assert k !in a && k !in b; } else { assert SameAt(a, before, k) && SameAt(b, before, k); }
      case ZoneKey(d, z) =>
        if d != disk || z != zone { assert SameAt(a, before, k) && SameAt(b, before, k); }
    }
    assert a.Keys == b.Keys;
  }

  datatype Batch<V> =
    | Blocks(busy: bool, records: seq<Record<V>>)
    | Compaction(disk: nat, zone: nat, value: V, freed: seq<Loc>)

  function After<V>(data: map<Key, V>, bs: seq<Batch<V>>): map<Key, V> {
    if bs == [] then data
    else
      var d := After(data, bs[..|bs| - 1]);
      match bs[|bs| - 1]
      case Blocks(busy, rs) => WriteAll(busy, d, rs)
      case Compaction(disk, zone, v, freed) => Compacted(d, disk, zone, v, freed)
  }

  /** Every history of batches keeps busy and free keys apart. */
  lemma {:induction false} HistoryIsExclusive<V>(bs: seq<Batch<V>>)
    ensures Exclusive(After<V>(map[], bs))
  {
    if bs != [] {
      HistoryIsExclusive(bs[..|bs| - 1]);
      var d := After<V>(map[], bs[..|bs| - 1]);
      match bs[|bs| - 1]
      case Blocks(busy, rs) => BatchKeepsExclusive(busy, d, rs);
      case Compaction(disk, zone, v, freed) => CompactionPutsSnapshot(d, disk, zone, v, freed);
    }
  }

  // ---- Order does not matter ------------------------------------------

  ghost predicate DistinctLocs<V>(rs: seq<Record<V>>) {
    forall i, j :: 0 <= i < j < |rs| ==> rs[i].loc != rs[j].loc
  }

  ghost predicate SameAt<V>(d: map<Key, V>, data: map<Key, V>, k: Key) {
    (k in d <==> k in data) && (k in data ==> d[k] == data[k])
  }

  ghost predicate Untouched<V>(d: map<Key, V>, data: map<Key, V>, l: Loc) {
    SameAt(d, data, BusyKey(l)) && SameAt(d, data, FreeKey(l))
  }

  ghost predicate Written<V>(busy: bool, d: map<Key, V>, r: Record<V>) {
    var on, off := if busy then BusyKey(r.loc) else FreeKey(r.loc), if busy then FreeKey(r.loc) else BusyKey(r.loc);
    on in d && d[on] == r.value && off !in d
  }

  lemma WriteAt<V>(busy: bool, data: map<Key, V>, r: Record<V>, l: Loc)
    ensures Written(busy, Write(busy, data, r), r)
    ensures r.loc != l ==> Untouched(Write(busy, data, r), data, l)
  {}

  /** A batch of distinct offsets, offset by offset. */
  lemma {:induction false} BatchAt<V>(busy: bool, data: map<Key, V>, rs: seq<Record<V>>, l: Loc)
    requires DistinctLocs(rs)
    ensures forall r :: r in rs && r.loc == l ==> Written(busy, WriteAll(busy, data, rs), r)
    ensures (forall r :: r in rs ==> r.loc != l) ==> Untouched(WriteAll(busy, data, rs), data, l)
  {
    if rs != [] {
      var k := |rs| - 1;
      BatchAt(busy, data, rs[..k], l);
      WriteAt(busy, WriteAll(busy, data, rs[..k]), rs[k], l);
      assert rs == rs[..k] + [rs[k]];
      assert rs[k].loc == l ==> forall r :: r in rs[..k] ==> r.loc != l;
    }
  }

  lemma {:induction false} BatchKeepsZones<V>(busy: bool, data: map<Key, V>, rs: seq<Record<V>>, k: Key)
    requires k.ZoneKey?
    ensures var d := WriteAll(busy, data, rs);
      (k in d <==> k in data) && (k in data ==> d[k] == data[k])
  {
    if rs != [] { BatchKeepsZones(busy, data, rs[..|rs| - 1], k); }
  }

  /** A batch of distinct offsets is its single writes in any order. */
  lemma BatchInAnyOrder<V>(busy: bool, data: map<Key, V>, rs: seq<Record<V>>, perm: seq<Record<V>>)
    requires DistinctLocs(rs) && DistinctLocs(perm)
    requires forall r :: r in rs <==> r in perm
    ensures WriteAll(busy, data, rs) == WriteAll(busy, data, perm)
  {
    var a, b := WriteAll(busy, data, rs), WriteAll(busy, data, perm);
    forall k ensures (k in a <==> k in b) && (k in a ==> a[k] == b[k]) {
      if k.ZoneKey? {
        BatchKeepsZones(busy, data, rs, k);
        BatchKeepsZones(busy, data, perm, k);
      } else {
        BatchAt(busy, data, rs, k.loc);
        BatchAt(busy, data, perm, k.loc);
      }
    }
    assert a.Keys == b.Keys;
  }
}
