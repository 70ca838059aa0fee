/** Rebuilding and compacting zone bitmaps in place: the loops of
`load_zone_inner`, `rebuild_zone_bitmap_full_scan`, `compact_zone_inner` and
`load_disk_group`, proved against the functions of `ZoneProtocol`. */
module ZoneLoad {
  import opened Bitmap
  import opened ZoneProtocol
  import ZoneDiscipline

  /** What a point lookup of the snapshot gives. */
  datatype Stored = NoSnapshot | Valid(value: Snapshot) | Corrupt | Unreadable

  /** What a scan of the journal gives. */
  datatype JournalScan<T> = Ops(ops: seq<T>) | GcGap | KvError

  datatype FreeOp = PutFree(ts: nat) | DeleteFree

  datatype LoadError = SnapshotCrcFail | JournalScanGcGap | Kv

  datatype Outcome = Rebuilt | Failed(error: LoadError)

  /** Every extent named lies inside the bitmap. */
  ghost predicate Fits(ops: seq<JournalOp>, capacity: nat) {
    forall i :: 0 <= i < |ops| && ops[i].PutBusy? ==> ops[i].off + ops[i].len <= capacity
  }

  /** Restoring snapshot bits into a new bitmap. */
  method Restore(bits: set<nat>, capacity: nat) returns (bm: UsageBitmap)
    requires forall u :: u in bits ==> u < capacity
    ensures fresh(bm) && fresh(bm.bits) && bm.bits.Length == capacity && bm.View() == bits
  {
    bm := new UsageBitmap(capacity);
    for i := 0 to capacity
      invariant fresh(bm.bits)
      invariant forall k :: 0 <= k < capacity ==> bm.bits[k] == (k < i && k in bits)
    {
      bm.bits[i] := i in bits;
    }
  }

  /** Every read that strategy 2 makes succeeds. */
  predicate Replayable(stored: Stored, busy: JournalScan<JournalOp>, freed: JournalScan<FreeOp>) {
    (stored.NoSnapshot? || stored.Valid?) && busy.Ops? && freed.Ops?
  }

  /** No stamp of a free put is above `ts`. */
  ghost predicate NoneAbove(freed: JournalScan<FreeOp>, ts: nat) {
    freed.Ops? ==> forall i :: 0 <= i < |freed.ops| && freed.ops[i].PutFree? ==> freed.ops[i].ts <= ts
  }

  /** `ts` is the stamp of some free put, or 0. */
  ghost predicate OneOf(freed: JournalScan<FreeOp>, ts: nat) {
    ts == 0 || (freed.Ops? && PutFree(ts) in freed.ops)
  }

  /** Free puts less free deletes. */
  function Net(ops: seq<FreeOp>): int {
    if ops == [] then 0 else Net(ops[..|ops| - 1]) + (if ops[|ops| - 1].DeleteFree? then -1 else 1)
  }

  /** The places of the free puts, and of the free deletes. */
  function Puts(ops: seq<FreeOp>): set<nat> {
    set i: nat | i < |ops| && ops[i].PutFree?
  }

  function Deletes(ops: seq<FreeOp>): set<nat> {
    set i: nat | i < |ops| && ops[i].DeleteFree?
  }

  lemma {:induction false} NetIsDifference(ops: seq<FreeOp>)
    ensures Net(ops) == |Puts(ops)| - |Deletes(ops)|
  {
    if ops != [] {
      var k := |ops| - 1;
      NetIsDifference(ops[..k]);
      var puts, deletes := Puts(ops[..k]), Deletes(ops[..k]);
      assert Puts(ops) == if ops[k].PutFree? then puts + {k} else puts;
      assert Deletes(ops) == if ops[k].DeleteFree? then deletes + {k} else deletes;
    }
  }

  /** The free journal: the newest stamp and the backlog. */
  method ReadFreed(ops: seq<FreeOp>) returns (maxFreedTs: nat, backlog: nat)
    ensures NoneAbove(Ops(ops), maxFreedTs) && OneOf(Ops(ops), maxFreedTs)
    ensures backlog == if 0 <= Net(ops) <= 0xffff_ffff then Net(ops) else 0
  {
    maxFreedTs := 0;
    var net := 0;
    for i := 0 to |ops|
      invariant forall k :: 0 <= k < i && ops[k].PutFree? ==> ops[k].ts <= maxFreedTs
      invariant maxFreedTs == 0 || PutFree(maxFreedTs) in ops
      invariant net == Net(ops[..i])
    {
      assert ops[..i + 1][..i] == ops[..i];
      match ops[i] {
        case DeleteFree => net := net - 1;
        case PutFree(ts) =>
          net := net + 1;
          if ts > maxFreedTs { maxFreedTs := ts; }
      }
    }
    assert ops[..|ops|] == ops;
    backlog := if 0 <= net <= 0xffff_ffff then net else 0;
  }

  /** The replay loop over the busy journal. */
  method ReplayBusy(bm: UsageBitmap, ops: seq<JournalOp>)
    requires Fits(ops, bm.bits.Length)
    modifies bm.bits
    ensures bm.View() == Replay(old(bm.View()), ops)
  {
    for i := 0 to |ops|
      invariant bm.View() == Replay(old(bm.View()), ops[..i])
    {
      assert ops[..i + 1][..i] == ops[..i];
      if ops[i].PutBusy? {
        var _ := bm.RangeSet(ops[i].off, ops[i].len);
      }
    }
    assert ops[..|ops|] == ops;
  }

  /** Strategy 2: the snapshot, the busy journal over it, and then the free journal.
      Any of the three reads may fail. */
  method LoadZoneInner(stored: Stored, busy: JournalScan<JournalOp>, freed: JournalScan<FreeOp>, capacity: nat)
    returns (outcome: Outcome, bm: UsageBitmap, maxFreedTs: nat, backlog: nat)
    requires stored.Valid? ==> forall u :: u in stored.value.bits ==> u < capacity
    requires busy.Ops? ==> Fits(busy.ops, capacity)
    ensures fresh(bm) && fresh(bm.bits) && bm.bits.Length == capacity
    ensures outcome.Rebuilt? <==> Replayable(stored, busy, freed)
    ensures outcome == Failed(SnapshotCrcFail) <==> stored.Corrupt?
    ensures outcome == Failed(JournalScanGcGap) <==>
      !stored.Corrupt? && !stored.Unreadable? && (busy.GcGap? || (busy.Ops? && freed.GcGap?))
    ensures outcome.Rebuilt? ==>
      && bm.View() == Replay(if stored.Valid? then stored.value.bits else {}, busy.ops)
      && NoneAbove(freed, maxFreedTs) && backlog == if 0 <= Net(freed.ops) <= 0xffff_ffff then Net(freed.ops) else 0
    ensures OneOf(freed, maxFreedTs)
  {
    maxFreedTs, backlog := 0, 0;
    match stored {
      case Unreadable =>
        bm := new UsageBitmap(capacity);
        return Failed(Kv), bm, 0, 0;
      case Corrupt =>
        bm := new UsageBitmap(capacity);
        return Failed(SnapshotCrcFail), bm, 0, 0;
      case Valid(v) => bm := Restore(v.bits, capacity);
      case NoSnapshot => bm := new UsageBitmap(capacity);
    }
    match busy {
      case GcGap => return Failed(JournalScanGcGap), bm, 0, 0;
      case KvError => return Failed(Kv), bm, 0, 0;
      case Ops(ops) => ReplayBusy(bm, ops);
    }
    match freed {
      case GcGap => outcome := Failed(JournalScanGcGap);
      case KvError => outcome := Failed(Kv);
      case Ops(ops) =>
        maxFreedTs, backlog := ReadFreed(ops);
        outcome := Rebuilt;
    }
  }

  /** Strategy 1. */
  method RebuildZoneBitmapFullScan(records: seq<BusyRecord>, capacity: nat) returns (bm: UsageBitmap)
    requires forall i :: 0 <= i < |records| ==> records[i].off + records[i].len <= capacity
    ensures fresh(bm) && fresh(bm.bits) && bm.bits.Length == capacity
    ensures bm.View() == ScanBits(records)
  {
    bm := new UsageBitmap(capacity);
    for i := 0 to |records|
      invariant fresh(bm.bits) && bm.View() == ScanBits(records[..i])
    {
      assert records[..i + 1][..i] == records[..i];
      var _ := bm.RangeSet(records[i].off, records[i].len);
    }
    assert records[..|records|] == records;
  }

  /** How many records lie above the watermark. */
  function Newer(recs: seq<FreeRecord>, watermark: nat): nat {
    if recs == [] then 0
    else Newer(recs[..|recs| - 1], watermark) + (if recs[|recs| - 1].ts > watermark then 1 else 0)
  }

  lemma {:induction false} NewerCounts(recs: seq<FreeRecord>, watermark: nat)
    ensures Newer(recs, watermark) == |set i: nat | i < |recs| && recs[i].ts > watermark|
  {
    if recs != [] {
      var k := |recs| - 1;
      NewerCounts(recs[..k], watermark);
      var newer := set i: nat | i < k && recs[..k][i].ts > watermark;
      assert (set i: nat | i < |recs| && recs[i].ts > watermark) ==
             if recs[k].ts > watermark then newer + {k} else newer;
    }
  }

  /** The in-memory half of a compaction: clear what is newer than the
      watermark, drop the rest, advance the watermark. */
  method CompactZoneInner(bm: UsageBitmap, compactTs: nat, recs: seq<FreeRecord>)
    returns (newTs: nat, newCount: nat, staleCount: nat)
    requires forall i :: 0 <= i < |recs| ==> recs[i].off + recs[i].len <= bm.bits.Length
    modifies bm.bits
    ensures bm.View() == MergeBits(old(bm.View()), recs, compactTs)
    ensures newTs == MergeTs(recs, compactTs) && compactTs <= newTs
    ensures newCount == Newer(recs, compactTs) && staleCount == |recs| - newCount
    ensures newCount == 0 ==> bm.View() == old(bm.View()) && newTs == compactTs
  {
    newTs, newCount, staleCount := compactTs, 0, 0;
    for i := 0 to |recs|
      invariant bm.View() == MergeBits(old(bm.View()), recs[..i], compactTs)
      invariant newTs == MergeTs(recs[..i], compactTs) >= compactTs
      invariant newCount == Newer(recs[..i], compactTs) && newCount + staleCount == i
      invariant newCount == 0 ==> bm.View() == old(bm.View()) && newTs == compactTs
    {
      assert recs[..i + 1][..i] == recs[..i];
      if recs[i].ts <= compactTs {
        staleCount := staleCount + 1;
      } else {
        var _ := bm.RangeClear(recs[i].off, recs[i].len);
        newCount := newCount + 1;
        if recs[i].ts > newTs { newTs := recs[i].ts; }
      }
    }
    assert recs[..|recs|] == recs;
  }

  // ---- A disk group ---------------------------------------------------

  /** One zone's durable state and what the reads of it return.  The load task of a
      zone may also panic. */
  datatype ZoneReads = ZoneReads(
    d: Durable, stored: Stored, busy: JournalScan<JournalOp>, freed: JournalScan<FreeOp>, panics: bool,
    records: seq<BusyRecord>, scanFails: bool, capacity: nat)

  /** The reads that succeed return what is stored. */
  ghost predicate Faithful(r: ZoneReads) {
    && r.d.zone.slot <= |r.d.journal|
    && (r.stored.Valid? ==> r.stored.value == r.d.zone)
    && (r.stored.NoSnapshot? ==> r.d.zone == FreshSnapshot)
    && (r.busy.Ops? ==> r.busy.ops == r.d.journal[r.d.zone.slot..])
    && ListsBusy(r.records, r.d.busy)
    && Fits(r.d.journal, r.capacity) && (forall u :: u in r.d.zone.bits ==> u < r.capacity)
    && (forall i :: 0 <= i < |r.records| ==> r.records[i].off + r.records[i].len <= r.capacity)
  }

  /** A restart by either strategy finds every live block. */
  ghost predicate Recoverable(d: Durable) {
    d.zone.slot <= |d.journal| && Apart(d.busy) && Live(d.busy) <= Load(d)
  }

  /** The durable state stays recoverable through every disciplined run. */
  lemma RunsStayRecoverable(es: seq<Event>)
    requires Legal(FreshZone, es, ZoneDiscipline.Disciplined)
    ensures Recoverable(Run(FreshZone, es, ZoneDiscipline.Disciplined).d)
  {
    ZoneDiscipline.FreshIsCleanAndInv();
    ZoneDiscipline.RunKeepsInv(FreshZone, es);
  }

  /** Strategy 2 gave the zone its bitmap. */
  predicate Replays(r: ZoneReads) {
    !r.panics && Replayable(r.stored, r.busy, r.freed)
  }

  /** The zone got no bitmap from either strategy: a load task that panics is not
      followed by a scan. */
  predicate Blind(r: ZoneReads) {
    r.panics || (!Replays(r) && r.scanFails)
  }

  /** A bitmap covers the live blocks exactly when a strategy gave it, or there are none. */
  ghost predicate CoveredIff(r: ZoneReads, bits: set<nat>) {
    Live(r.d.busy) <= bits <==> !Blind(r) || Live(r.d.busy) == {}
  }

  /** The bits a zone comes up with: the journal over the snapshot when replayed, the
      live blocks when scanned, none when neither. */
  ghost predicate Loads(r: ZoneReads, bits: set<nat>)
    requires Faithful(r)
  {
    && (Replays(r) ==> bits == Load(r.d))
    && (!Replays(r) && !Blind(r) ==> bits == ScanBits(r.records) && (Apart(r.d.busy) ==> bits == Live(r.d.busy)))
    && (Blind(r) ==> bits == {})
  }

  method LoadZone(r: ZoneReads) returns (bm: UsageBitmap, maxFreedTs: nat)
    requires Faithful(r)
    ensures fresh(bm) && fresh(bm.bits) && bm.bits.Length == r.capacity
    ensures Loads(r, bm.View())
    ensures Recoverable(r.d) ==> CoveredIff(r, bm.View())
    ensures OneOf(r.freed, maxFreedTs) && if Replays(r) then NoneAbove(r.freed, maxFreedTs) else maxFreedTs == 0
  {
    if r.panics {
      bm := new UsageBitmap(r.capacity);
      return bm, 0;
    }
    var outcome, backlog;
    outcome, bm, maxFreedTs, backlog := LoadZoneInner(r.stored, r.busy, r.freed, r.capacity);
    if outcome.Failed? {
      maxFreedTs := 0;
      if r.scanFails {
        bm := new UsageBitmap(r.capacity);
      } else {
        bm := RebuildZoneBitmapFullScan(r.records, r.capacity);
        if Apart(r.d.busy) { ScanIsLive(r.records, r.d.busy); }
      }
    }
  }

  /** Every zone of the group is rebuilt to a bitmap of its own size, exactly as it
      loads alone, that covers its live blocks whichever strategy succeeded; a zone for
      which both failed, or whose load panicked, comes up empty.  The stamp returned,
      which seeds the stamps of later frees, is the newest of the zones that were
      replayed. */
  method LoadDiskGroup(zones: seq<ZoneReads>) returns (bms: seq<UsageBitmap>, maxFreedTs: nat)
    requires forall i :: 0 <= i < |zones| ==> Faithful(zones[i])
    ensures |bms| == |zones|
    ensures forall i :: 0 <= i < |zones| ==> fresh(bms[i]) && fresh(bms[i].bits)
    ensures forall i :: 0 <= i < |zones| ==> bms[i].bits.Length == zones[i].capacity && Loads(zones[i], bms[i].View())
    ensures forall i :: 0 <= i < |zones| && Recoverable(zones[i].d) ==> CoveredIff(zones[i], bms[i].View())
    ensures forall i :: 0 <= i < |zones| && Replays(zones[i]) ==> NoneAbove(zones[i].freed, maxFreedTs)
    ensures maxFreedTs == 0 || exists i :: 0 <= i < |zones| && Replays(zones[i]) && OneOf(zones[i].freed, maxFreedTs)
  {
    bms, maxFreedTs := [], 0;
    for k := 0 to |zones|
      invariant |bms| == k
      invariant forall i :: 0 <= i < k ==> fresh(bms[i]) && fresh(bms[i].bits)
      invariant forall i :: 0 <= i < k ==> bms[i].bits.Length == zones[i].capacity && Loads(zones[i], bms[i].View())
      invariant forall i :: 0 <= i < k && Recoverable(zones[i].d) ==> CoveredIff(zones[i], bms[i].View())
      invariant forall i :: 0 <= i < k && Replays(zones[i]) ==> NoneAbove(zones[i].freed, maxFreedTs)
      invariant maxFreedTs == 0 || exists i :: 0 <= i < k && Replays(zones[i]) && OneOf(zones[i].freed, maxFreedTs)
    {
      var bm, ts := LoadZone(zones[k]);
      bms := bms + [bm];
      forall i | 0 <= i <= k && Replays(zones[i])
        ensures NoneAbove(zones[i].freed, if ts > maxFreedTs then ts else maxFreedTs)
      {}
      if ts > maxFreedTs { maxFreedTs := ts; }
    }
  }
}
