/** One disk zone as a state machine over its durable records and its memory.

Durable: the busy and free block records, the `ZoneValue` snapshot and the
journal of the bound data group (slot `i + 1` is `journal[i]`).  Memory: the
usage bitmap, the compaction watermark, the claims whose record is not yet
written, and how far a compaction has got.  A restart loses the memory and
rebuilds it from the journal (strategy 2) or from the busy records
(strategy 1), or comes up with an empty bitmap when both fail.

`Enabled` and `Apply` are what the code does, with the default settings: a free
persists whatever extent it is given, a commit writes back the record it read
some time before, and a persist may be applied although it reports an error.
`Disciplined`, `Checked`, `Stamped` and `OnGrid` are the premises under which no
live block is ever lost. */
module ZoneProtocol {
  import opened Bitmap

  datatype FreeValue = FreeValue(len: nat, ts: nat)
  datatype FreeRecord = FreeRecord(off: nat, len: nat, ts: nat)
  datatype BusyRecord = BusyRecord(off: nat, len: nat)
  datatype Snapshot = Snapshot(bits: set<nat>, slot: nat, compactTs: nat)
  datatype JournalOp = PutBusy(off: nat, len: nat) | DeleteBusy(off: nat) | Other

  datatype Durable = Durable(
    busy: map<nat, nat>, free: map<nat, FreeValue>, zone: Snapshot, journal: seq<JournalOp>)

  datatype Phase =
    | Idle
    | Scanned(recs: seq<FreeRecord>)
    | Merged(keys: set<nat>)
    | Anchored(keys: set<nat>, slot: nat)
    | Built(keys: set<nat>, value: Snapshot)

  datatype Zone = Zone(
    d: Durable, bits: set<nat>, compactTs: nat, pending: map<nat, nat>, phase: Phase)

  datatype Event =
    | Claim(off: nat, len: nat)
    | PersistBusy(off: nat)
    | PersistFails(off: nat)
    | PersistLost(off: nat)
    | Commit(off: nat, len: nat)
    | FreeBlock(off: nat, len: nat, ts: nat)
    | OtherWrite
    | ScanFree(recs: seq<FreeRecord>)
    | MergeFree
    | Anchor(slot: nat)
    | BuildSnapshot
    | BatchApplied
    | BatchFails
    | RestartReplay
    | RestartFullScan(records: seq<BusyRecord>, snapshotWritten: bool)
    | RestartEmpty

  // ---- What the records say -------------------------------------------

  /** The units of the extents in `m`. */
  ghost function Live(m: map<nat, nat>): set<nat> {
    set o, u | o in m && u in Units(o, m[o]) :: u
  }

  /** The extents in `m` are not empty and do not overlap. */
  ghost predicate Apart(m: map<nat, nat>) {
    && (forall a :: a in m ==> m[a] > 0)
    && (forall a, b :: a in m && b in m && a != b ==> Units(a, m[a]) !! Units(b, m[b]))
  }

  /** `load_zone_inner` applies `Put BusyBlockKey` only; frees are ignored. */
  function Replayed(bits: set<nat>, op: JournalOp): set<nat> {
    match op
    case PutBusy(o, n) => SetRange(bits, o, n)
    case DeleteBusy(_) => bits
    case Other => bits
  }

  function Replay(bits: set<nat>, ops: seq<JournalOp>): set<nat> {
    if ops == [] then bits else Replayed(Replay(bits, ops[..|ops| - 1]), ops[|ops| - 1])
  }

  /** The bitmap of a snapshot after replaying the slots that follow it. */
  function ReplayFrom(s: Snapshot, journal: seq<JournalOp>): set<nat>
    requires s.slot <= |journal|
  {
    Replay(s.bits, journal[s.slot..])
  }

  function Load(d: Durable): set<nat>
    requires d.zone.slot <= |d.journal|
  {
    ReplayFrom(d.zone, d.journal)
  }

  /** The bitmap `rebuild_zone_bitmap_full_scan` builds from busy records. */
  function ScanBits(recs: seq<BusyRecord>): set<nat> {
    if recs == [] then {}
    else SetRange(ScanBits(recs[..|recs| - 1]), recs[|recs| - 1].off, recs[|recs| - 1].len)
  }

  /** `recs` lists the busy records on disk, once each. */
  ghost predicate ListsBusy(recs: seq<BusyRecord>, busy: map<nat, nat>)
    decreases |recs|
  {
    if recs == [] then busy == map[]
    else
      var r := recs[|recs| - 1];
      r.off in busy && busy[r.off] == r.len && ListsBusy(recs[..|recs| - 1], busy - {r.off})
  }

  /** `recs` lists the free records on disk, once each. */
  ghost predicate Lists(recs: seq<FreeRecord>, free: map<nat, FreeValue>)
    decreases |recs|
  {
    if recs == [] then free == map[]
    else
      var r := recs[|recs| - 1];
      && r.off in free && free[r.off] == FreeValue(r.len, r.ts)
      && Lists(recs[..|recs| - 1], free - {r.off})
  }

  ghost function Keys(recs: seq<FreeRecord>): set<nat> {
    set i | 0 <= i < |recs| :: recs[i].off
  }

  /** The bitmap part of `compact_zone_inner`: records at or below the
      watermark are dropped, the others cleared. */
  function MergeBits(bits: set<nat>, recs: seq<FreeRecord>, watermark: nat): set<nat> {
    if recs == [] then bits
    else
      var r := recs[|recs| - 1];
      var b := MergeBits(bits, recs[..|recs| - 1], watermark);
      if r.ts <= watermark then b else ClearRange(b, r.off, r.len)
  }

  function MergeTs(recs: seq<FreeRecord>, watermark: nat): nat {
    if recs == [] then watermark
    else
      var t := MergeTs(recs[..|recs| - 1], watermark);
      if recs[|recs| - 1].ts > t then recs[|recs| - 1].ts else t
  }

  // ---- The code's steps -----------------------------------------------

  const FreshSnapshot := Snapshot({}, 0, 0)
  const FreshZone := Zone(Durable(map[], map[], FreshSnapshot, []), {}, 0, map[], Idle)

  ghost predicate Enabled(z: Zone, e: Event) {
    match e
    case Claim(o, n) => n > 0 && Units(o, n) !! z.bits
    case PersistBusy(o) => o in z.pending
    case PersistFails(o) => o in z.pending
    case PersistLost(o) => o in z.pending
    case Commit(_, _) => true
    case FreeBlock(_, _, _) => true
    case OtherWrite => true
    case ScanFree(recs) => z.phase.Idle? && recs != [] && Lists(recs, z.d.free)
    case MergeFree => z.phase.Scanned?
    case Anchor(slot) => z.phase.Merged? && (slot == |z.d.journal| || slot == 0)
    case BuildSnapshot => z.phase.Anchored?
    case BatchApplied => z.phase.Built?
    case BatchFails => z.phase.Built?
    case RestartReplay => z.d.zone.slot <= |z.d.journal|
    case RestartFullScan(recs, _) => ListsBusy(recs, z.d.busy)
    case RestartEmpty => true
  }

  ghost function Write(d: Durable, op: JournalOp): Durable {
    d.(journal := d.journal + [op])
  }

  /** The batch of `persist_busy`: put the busy record, delete the free one. */
  ghost function BusyWritten(d: Durable, o: nat, n: nat): Durable {
    Write(d, PutBusy(o, n)).(busy := d.busy[o := n], free := d.free - {o})
  }

  /** The batch of `persist_free`: the reverse. */
  ghost function FreeWritten(d: Durable, o: nat, v: FreeValue): Durable {
    Write(d, DeleteBusy(o)).(busy := d.busy - {o}, free := d.free[o := v])
  }

  /** `rollback_allocate` of a claim. */
  ghost function RolledBack(z: Zone, o: nat): Zone
    requires o in z.pending
  {
    z.(bits := ClearRange(z.bits, o, z.pending[o]), pending := z.pending - {o})
  }

  ghost function Apply(z: Zone, e: Event): Zone
    requires Enabled(z, e)
  {
    match e
    case Claim(o, n) => z.(bits := z.bits + Units(o, n), pending := z.pending[o := n])
    case PersistBusy(o) => z.(d := BusyWritten(z.d, o, z.pending[o]), pending := z.pending - {o})
    case PersistFails(o) => RolledBack(z, o)
    case PersistLost(o) => RolledBack(z.(d := BusyWritten(z.d, o, z.pending[o])), o)
    case Commit(o, n) => z.(d := BusyWritten(z.d, o, n))
    case FreeBlock(o, n, ts) => z.(d := FreeWritten(z.d, o, FreeValue(n, ts)))
    case OtherWrite => z.(d := Write(z.d, Other))
    case ScanFree(recs) => z.(phase := Scanned(recs))
    case MergeFree =>
      z.(bits := MergeBits(z.bits, z.phase.recs, z.compactTs),
         compactTs := MergeTs(z.phase.recs, z.compactTs),
         phase := Merged(Keys(z.phase.recs)))
    case Anchor(slot) => z.(phase := Anchored(z.phase.keys, slot))
    case BuildSnapshot =>
      z.(phase := Built(z.phase.keys, Snapshot(z.bits, z.phase.slot, z.compactTs)))
    case BatchApplied =>
      z.(d := Write(z.d, Other).(zone := z.phase.value, free := z.d.free - z.phase.keys),
         phase := Idle)
    case BatchFails => z.(phase := Idle)
    case RestartReplay => Zone(z.d, Load(z.d), z.d.zone.compactTs, map[], Idle)
    case RestartFullScan(recs, written) =>
      var bits := ScanBits(recs);
      var d := if written
               then Write(z.d, Other).(zone := Snapshot(bits, |z.d.journal|, 0))
               else z.d;
      Zone(d, bits, 0, map[], Idle)
    case RestartEmpty => Zone(z.d, {}, 0, map[], Idle)
  }

  /** The keys a compaction under way is going to delete. */
  ghost function Doomed(p: Phase): set<nat> {
    match p
    case Idle => {}
    case Scanned(recs) => Keys(recs)
    case Merged(keys) => keys
    case Anchored(keys, _) => keys
    case Built(keys, _) => keys
  }

  // ---- Guards a caller could check against the records -----------------

  /** There is a busy record with this extent. */
  predicate Recorded(d: Durable, o: nat, n: nat) {
    o in d.busy && d.busy[o] == n
  }

  /** There is a free record with this extent: the free is a retry. */
  predicate Retried(d: Durable, o: nat, n: nat) {
    o in d.free && d.free[o].len == n
  }

  /** A run of the code that also meets the premise `ok` at every step. */
  ghost predicate Legal(z: Zone, es: seq<Event>, ok: (Zone, Event) -> bool)
    decreases |es|
  {
    es == [] || (Enabled(z, es[0]) && ok(z, es[0]) && Legal(Apply(z, es[0]), es[1..], ok))
  }

  ghost function Run(z: Zone, es: seq<Event>, ok: (Zone, Event) -> bool): Zone
    requires Legal(z, es, ok)
    decreases |es|
  {
    if es == [] then z else Run(Apply(z, es[0]), es[1..], ok)
  }

  /** No live block is lost: live extents do not overlap and every unit of
      them is set in the bitmap, so no later claim can take one. */
  ghost predicate Safe(z: Zone) {
    Apart(z.d.busy) && Live(z.d.busy) <= z.bits
  }

  // ---- Replay ---------------------------------------------------------

  lemma {:induction false} ReplayGrows(bits: set<nat>, ops: seq<JournalOp>)
    ensures bits <= Replay(bits, ops)
  {
    if ops != [] { ReplayGrows(bits, ops[..|ops| - 1]); }
  }

  lemma ReplayWrite(s: Snapshot, journal: seq<JournalOp>, op: JournalOp)
    requires s.slot <= |journal|
    ensures ReplayFrom(s, journal + [op]) == Replayed(ReplayFrom(s, journal), op)
  {
    var ops := journal[s.slot..];
    assert (journal + [op])[s.slot..] == ops + [op];
    assert (ops + [op])[..|ops|] == ops;
  }

  /** A write of another kind moves the journal on and changes nothing else, now or after
      a restart. */
  lemma OtherWriteOnlyMovesOn(z: Zone)
    requires z.d.zone.slot <= |z.d.journal|
    ensures var z' := Apply(z, OtherWrite);
      && |z'.d.journal| == |z.d.journal| + 1 && z.d.journal <= z'.d.journal && Load(z'.d) == Load(z.d)
      && z' == z.(d := z.d.(journal := z'.d.journal))
  {
    ReplayWrite(z.d.zone, z.d.journal, Other);
  }

  /** No put among the operations is for an extent that is wholly clear. */
  ghost predicate Quiet(bits: set<nat>, ops: seq<JournalOp>) {
    forall i :: 0 <= i < |ops| && ops[i].PutBusy? && ops[i].len > 0 ==> !(Units(ops[i].off, ops[i].len) !! bits)
  }

  /** A replay changes nothing exactly when it puts no wholly clear extent. */
  lemma {:induction false} QuietIff(bits: set<nat>, ops: seq<JournalOp>)
    ensures Replay(bits, ops) == bits <==> Quiet(bits, ops)
  {
    if ops != [] {
      var k := |ops| - 1;
      QuietIff(bits, ops[..k]);
      ReplayGrows(bits, ops[..k]);
      assert Replay(bits, ops[..k]) <= Replay(bits, ops);
      assert Quiet(bits, ops) ==> Quiet(bits, ops[..k]);
      if ops[k].PutBusy? && ops[k].len > 0 { assert ops[k].off in Units(ops[k].off, ops[k].len); }
    }
  }

  lemma LiveOf(m: map<nat, nat>, o: nat)
    requires o in m
    ensures Units(o, m[o]) <= Live(m)
  {
  }

  lemma LiveInsert(m: map<nat, nat>, o: nat, n: nat)
    requires o !in m
    ensures Live(m[o := n]) == Live(m) + Units(o, n)
  {
    var m' := m[o := n];
    forall u ensures u in Live(m') <==> u in Live(m) + Units(o, n) {
      if u in Live(m) {
        var a :| a in m && u in Units(a, m[a]);
        assert a in m' && m'[a] == m[a];
      }
      if u in Units(o, n) { assert m'[o] == n; }
    }
  }

  lemma LiveRemove(m: map<nat, nat>, o: nat)
    requires Apart(m) && o in m
    ensures Apart(m - {o})
    ensures Live(m - {o}) == Live(m) - Units(o, m[o])
  {
    var m', us := m - {o}, Units(o, m[o]);
    assert Live(m) == Live(m') + us by {
      LiveInsert(m', o, m[o]);
      assert m'[o := m[o]] == m;
    }
    assert Live(m') !! us by {
      forall u | u in Live(m') ensures u !in us {
        var a :| a in m' && u in Units(a, m'[a]);
        assert m'[a] == m[a];
      }
    }
  }

  /** `s` holds some of the extents of `m`. */
  ghost predicate Part(s: map<nat, nat>, m: map<nat, nat>) {
    forall o :: o in s ==> o in m && s[o] == m[o]
  }

  lemma LivePart(s: map<nat, nat>, m: map<nat, nat>)
    requires Part(s, m)
    ensures Live(s) <= Live(m)
    ensures Apart(m) ==> Apart(s)
  {
    forall u | u in Live(s) ensures u in Live(m) {
      var o :| o in s && u in Units(o, s[o]);
      assert u in Units(o, m[o]);
    }
  }

  lemma LiveUnion(m: map<nat, nat>, s: map<nat, nat>, l: map<nat, nat>)
    requires Part(s, m) && Part(l, m) && m.Keys == s.Keys + l.Keys
    ensures Live(m) == Live(s) + Live(l)
  {
    LivePart(s, m);
    LivePart(l, m);
    forall u | u in Live(m) ensures u in Live(s) + Live(l) {
      var o :| o in m && u in Units(o, m[o]);
      if o in s { assert u in Units(o, s[o]); } else { assert u in Units(o, l[o]); }
    }
  }

  lemma LiveDisjoint(m: map<nat, nat>, s: map<nat, nat>, l: map<nat, nat>)
    requires Apart(m) && Part(s, m) && Part(l, m) && s.Keys !! l.Keys
    ensures Live(s) !! Live(l)
  {
    forall u | u in Live(s) ensures u !in Live(l) {
      var a :| a in s && u in Units(a, s[a]);
      forall b | b in l ensures u !in Units(b, l[b]) {
        assert Units(a, m[a]) !! Units(b, m[b]);
      }
    }
  }

  // ---- Listings and strategy 1 -----------------------------------------------------

  lemma {:induction false} ListedOnDisk(recs: seq<FreeRecord>, free: map<nat, FreeValue>, i: nat)
    requires Lists(recs, free) && i < |recs|
    ensures recs[i].off in free && free[recs[i].off] == FreeValue(recs[i].len, recs[i].ts)
    decreases |recs|
  {
    var k := |recs| - 1;
    if i < k {
      ListedOnDisk(recs[..k], free - {recs[k].off}, i);
      assert recs[..k][i] == recs[i];
    }
  }

  lemma {:induction false} ListsAllKeys(recs: seq<FreeRecord>, free: map<nat, FreeValue>)
    requires Lists(recs, free)
    ensures Keys(recs) == free.Keys
    decreases |recs|
  {
    if recs == [] {
    } else {
      var k := |recs| - 1;
      ListsAllKeys(recs[..k], free - {recs[k].off});
      assert Keys(recs) == Keys(recs[..k]) + {recs[k].off} by {
        forall o | o in Keys(recs) ensures o in Keys(recs[..k]) + {recs[k].off} {
          var i :| 0 <= i < |recs| && recs[i].off == o;
          if i < k { assert recs[..k][i].off == o; }
        }
        forall o | o in Keys(recs[..k]) ensures o in Keys(recs) {
          var i :| 0 <= i < k && recs[..k][i].off == o;
          assert recs[i].off == o;
        }
        assert recs[k].off in Keys(recs);
      }
    }
  }

  /** Setting the listed extents one by one gives exactly the live units,
      in whatever order the scan lists them. */
  lemma {:induction false} ScanIsLive(recs: seq<BusyRecord>, busy: map<nat, nat>)
    requires ListsBusy(recs, busy) && Apart(busy)
    ensures ScanBits(recs) == Live(busy)
    decreases |recs|
  {
    if recs == [] {
    } else {
      var k := |recs| - 1;
      LiveRemove(busy, recs[k].off);
      ScanIsLive(recs[..k], busy - {recs[k].off});
      LiveOf(busy, recs[k].off);
    }
  }
}
