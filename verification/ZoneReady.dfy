/** Safety with premises that can be checked.

`ZoneDiscipline` asks of a claim that it fits what a replay would set and what free
records cover.  Here a claim needs no compaction under way and no free record at or
below the watermark, which a reader of the zone's free records can test.  That is
enough when a snapshot is anchored where no put after it is for a clear extent, no
claim that a snapshot holds is rolled back, and a full scan finds no free record left
and nothing replayed that is not live.  The code checks none of these: its flag
`compacted_ready` is set whatever the anchor was, whatever is in flight and whatever
a full scan left, and `ZoneHazards` has the runs in which a live block is lost. */
module ZoneReady {
  import opened Bitmap
  import opened ZoneProtocol
  import opened ZoneExact
  import ZoneDiscipline

  /** Everything compacted in memory is compacted on disk. */
  ghost predicate Ready(z: Zone) {
    z.phase.Idle? && NewerThan(z.d.free, z.compactTs)
  }

  ghost predicate Checked(z: Zone, e: Event) {
    && ZoneDiscipline.Orderly(z, e)
    && (e.Claim? ==> Ready(z))
    && (e.FreeBlock? ==> OnBooks(z, e.off, e.len))
    && Anchoring(z, e) && RollingBack(z, e) && Rebuilding(z, e)
  }

  /** No put after the anchor is for a clear extent. */
  ghost predicate Anchoring(z: Zone, e: Event) {
    e.Anchor? ==> e.slot <= |z.d.journal| && Quiet(z.bits, z.d.journal[e.slot..])
  }

  /** No snapshot holds a claim that is rolled back. */
  ghost predicate RollingBack(z: Zone, e: Event) {
    e.PersistFails? ==> e.off in z.pending && Unheld(z, e.off)
  }

  /** A full scan, or an empty restart, finds no free record left, and nothing in the
      snapshot it goes on with that it has not found. */
  ghost predicate Rebuilding(z: Zone, e: Event) {
    && (e.RestartFullScan? || e.RestartEmpty? ==> z.d.free == map[] && z.d.zone.slot <= |z.d.journal|)
    && (e.RestartFullScan? && !e.snapshotWritten ==> Load(z.d) <= Live(z.d.busy))
    && (e.RestartEmpty? ==> Load(z.d) == {})
  }

  // ---- At least what is needed ----------------------------------------

  /** The free records at or below `w`, as extents. */
  ghost function Below(free: map<nat, FreeValue>, w: nat): map<nat, nat> {
    map o | o in free && free[o].ts <= w :: free[o].len
  }

  /** Memory holds whatever a replay would set, but for merged records; freed units above
      a watermark are set, in memory and in a replay. */
  ghost predicate Ample(z: Zone) {
    && ZoneDiscipline.Inv(z) && Apart(Extents(z.d.free))
    && Load(z.d) <= z.bits + Live(Below(z.d.free, z.compactTs))
    && Live(After(z.d.free, z.compactTs)) <= z.bits
    && Live(After(z.d.free, z.compactTs)) <= Load(z.d)
    && Live(After(z.d.free, z.d.zone.compactTs)) <= Load(z.d)
    && AmplePhase(z)
  }

  ghost predicate AmplePhase(z: Zone) {
    match z.phase
    case Idle => true
    case Scanned(recs) => Stay(recs, z.d.free)
    case Merged(_) => true
    case Anchored(_, slot) => slot <= |z.d.journal| && Replay(z.bits, z.d.journal[slot..]) == z.bits
    case Built(_, v) =>
      && v.slot <= |z.d.journal| && v.compactTs == z.compactTs
      && ReplayFrom(v, z.d.journal) <= z.bits
      && Live(After(z.d.free, z.compactTs)) <= ReplayFrom(v, z.d.journal)
  }

  /** The listed records are on disk as they were listed. */
  ghost predicate Stay(recs: seq<FreeRecord>, free: map<nat, FreeValue>) {
    forall i :: 0 <= i < |recs| ==> recs[i].off in free && free[recs[i].off] == FreeValue(recs[i].len, recs[i].ts)
  }

  /** Then a ready zone is clean. */
  lemma ReadyIsClean(z: Zone)
    requires Ample(z) && Ready(z)
    ensures ZoneDiscipline.Clean(z)
  {
    assert Below(z.d.free, z.compactTs) == map[];
    assert Live(map[]) == {};
    forall o | o in z.d.free ensures Units(o, z.d.free[o].len) <= z.bits { LiveOf(After(z.d.free, z.compactTs), o); }
  }

  lemma DisciplineStep(z: Zone, e: Event)
    requires Ample(z) && Enabled(z, e) && Checked(z, e)
    ensures ZoneDiscipline.Inv(Apply(z, e))
  {
    if e.Claim? {
      ReadyIsClean(z);
      ZoneDiscipline.CleanFits(z, e.off, e.len);
    }
    ZoneDiscipline.StepKeeps(z, e);
  }

  // ---- Steps ----------------------------------------------------------

  lemma ClaimKeeps(z: Zone, e: Event)
    requires Ample(z) && Enabled(z, e) && Checked(z, e) && e.Claim?
    ensures Ample(Apply(z, e))
  {
    DisciplineStep(z, e);
  }

  lemma FreeNotTaken(z: Zone, o: nat)
    requires Ample(z) && o in z.d.free
    ensures o !in z.pending && o !in z.d.busy
  {
    assert Extents(z.d.free)[o] > 0;
    assert o in Units(o, z.d.free[o].len);
    KeyIsLive(z.pending, o);
    KeyIsLive(z.d.busy, o);
  }

  lemma TakenNotFree(z: Zone, o: nat)
    requires Ample(z) && (o in z.pending || o in z.d.busy)
    ensures o !in z.d.free
  {
    if o in z.d.free { FreeNotTaken(z, o); }
  }

  lemma PersistKeeps(z: Zone, e: Event)
    requires Ample(z) && Enabled(z, e) && Checked(z, e) && e.PersistBusy?
    ensures Ample(Apply(z, e))
  {
    var o, us := e.off, Units(e.off, z.pending[e.off]);
    DisciplineStep(z, e);
    TakenNotFree(z, o);
    assert z.d.free - {o} == z.d.free;
    LiveOf(z.pending, o);
    assert o in us && us <= z.bits;
    ZoneDiscipline.PutWhole(z.pending, o, z.d.zone, z.d.journal);
    PersistPhase(z, o);
  }

  lemma PersistPhase(z: Zone, o: nat)
    requires Ample(z) && o in z.pending && o !in z.d.free && Units(o, z.pending[o]) <= z.bits
    ensures AmplePhase(Apply(z, PersistBusy(o)))
  {
    var n := z.pending[o];
    assert z.d.free - {o} == z.d.free;
    assert o in Units(o, n);
    match z.phase
    case Anchored(_, slot) => ReplayWrite(Snapshot(z.bits, slot, 0), z.d.journal, PutBusy(o, n));
    case Built(_, v) => ZoneDiscipline.PutWhole(z.pending, o, v, z.d.journal);
    case _ =>
  }

  lemma RollBackKeeps(z: Zone, e: Event)
    requires Ample(z) && Enabled(z, e) && Checked(z, e) && e.PersistFails?
    ensures Ample(Apply(z, e))
  {
    var o, us := e.off, Units(e.off, z.pending[e.off]);
    DisciplineStep(z, e);
    LiveOf(z.pending, o);
    assert o in us && us <= z.bits;
    assert ClearRange(z.bits, o, z.pending[o]) == z.bits - us;
    AfterApart(z.d, z.compactTs, ZoneDiscipline.Taken(z));
    if z.phase.Anchored? { QuietIff(z.bits - us, z.d.journal[z.phase.slot..]); }
  }

  /** A write of records that changes no replay. */
  lemma QuietKeeps(z: Zone, e: Event)
    requires Ample(z) && Enabled(z, e) && Checked(z, e) && (e.Commit? || e.OtherWrite?)
    ensures Ample(Apply(z, e))
  {
    var op := if e.Commit? then PutBusy(e.off, e.len) else Other;
    DisciplineStep(z, e);
    if e.Commit? {
      LiveOf(z.d.busy, e.off);
      assert z.d.free - {e.off} == z.d.free && z.d.busy[e.off := e.len] == z.d.busy;
    }
    ReplayWrite(z.d.zone, z.d.journal, op);
    QuietPhase(z, op);
  }

  lemma QuietPhase(z: Zone, op: JournalOp)
    requires Ample(z) && (op.PutBusy? ==> op.len > 0 && Units(op.off, op.len) <= Live(z.d.busy))
    ensures AmplePhase(z.(d := Write(z.d, op)))
  {
    if op.PutBusy? { assert op.off in Units(op.off, op.len); }
    match z.phase
    case Anchored(_, slot) => ReplayWrite(Snapshot(z.bits, slot, 0), z.d.journal, op);
    case Built(_, v) => ReplayWrite(v, z.d.journal, op);
    case _ =>
  }

  lemma FreeKeeps(z: Zone, e: Event)
    requires Ample(z) && Enabled(z, e) && Checked(z, e) && e.FreeBlock?
    ensures Ample(Apply(z, e))
  {
    DisciplineStep(z, e);
    if Recorded(z.d, e.off, e.len) { FreeRecorded(z, e); } else { FreeRetried(z, e); }
  }

  lemma FreeRecorded(z: Zone, e: Event)
    requires Ample(z) && Enabled(z, e) && e.FreeBlock? && Recorded(z.d, e.off, e.len) && ZoneDiscipline.Inv(Apply(z, e))
    ensures Ample(Apply(z, e))
  {
    var o, v := e.off, FreeValue(e.len, e.ts);
    TakenNotFree(z, o);
    LiveOf(z.d.busy, o);
    ExtentsAdd(z.d.free, o, v, Live(z.d.busy));
    ReplayWrite(z.d.zone, z.d.journal, DeleteBusy(o));
    AddedAfter(z.d.free, o, v, z.compactTs);
    AddedAfter(z.d.free, o, v, z.d.zone.compactTs);
    FreePhase(z, e);
  }

  /** What a new or newly stamped record adds above and below a watermark. */
  lemma AddedAfter(free: map<nat, FreeValue>, o: nat, v: FreeValue, w: nat)
    requires o !in free || free[o].len == v.len
    ensures Live(After(free[o := v], w)) <= Live(After(free, w)) + Units(o, v.len)
    ensures o !in free || free[o].ts > w ==> Live(Below(free, w)) <= Live(Below(free[o := v], w))
  {
    if o !in free || free[o].ts > w { LivePart(Below(free, w), Below(free[o := v], w)); }
    forall u | u in Live(After(free[o := v], w)) && u !in Units(o, v.len) ensures u in Live(After(free, w)) {
      var a :| a in After(free[o := v], w) && u in Units(a, After(free[o := v], w)[a]);
      assert a in After(free, w);
    }
  }

  lemma FreePhase(z: Zone, e: Event)
    requires Ample(z) && Enabled(z, e) && e.FreeBlock?
    requires Recorded(z.d, e.off, e.len) && e.off !in z.d.free
    ensures AmplePhase(Apply(z, e))
  {
    var o, v := e.off, FreeValue(e.len, e.ts);
    LiveOf(z.d.busy, o);
    match z.phase
    case Anchored(_, slot) => ReplayWrite(Snapshot(z.bits, slot, 0), z.d.journal, DeleteBusy(o));
    case Built(_, s) =>
      ReplayWrite(s, z.d.journal, DeleteBusy(o));
      AddedAfter(z.d.free, o, v, z.compactTs);
    case _ =>
  }

  lemma FreeRetried(z: Zone, e: Event)
    requires Ample(z) && Enabled(z, e) && e.FreeBlock? && ZoneDiscipline.Inv(Apply(z, e))
    requires Waiting(z, e.off, e.len) && e.off !in Doomed(z.phase)
    ensures Ample(Apply(z, e))
  {
    var o, v := e.off, FreeValue(e.len, e.ts);
    assert Extents(z.d.free[o := v]) == Extents(z.d.free);
    LiveOf(After(z.d.free, z.compactTs), o);
    ReplayWrite(z.d.zone, z.d.journal, DeleteBusy(o));
    AddedAfter(z.d.free, o, v, z.compactTs);
    AddedAfter(z.d.free, o, v, z.d.zone.compactTs);
    RetriedPhase(z, e);
  }

  lemma RetriedPhase(z: Zone, e: Event)
    requires Ample(z) && Enabled(z, e) && e.FreeBlock? && Waiting(z, e.off, e.len) && e.off !in Doomed(z.phase)
    ensures AmplePhase(Apply(z, e))
  {
    var o, v := e.off, FreeValue(e.len, e.ts);
    match z.phase
    case Scanned(recs) =>
      forall i | 0 <= i < |recs| ensures recs[i].off != o { assert recs[i].off in Keys(recs); }
    case Anchored(_, slot) => ReplayWrite(Snapshot(z.bits, slot, 0), z.d.journal, DeleteBusy(o));
    case Built(_, s) =>
      ReplayWrite(s, z.d.journal, DeleteBusy(o));
      LiveOf(After(z.d.free, z.compactTs), o);
      AddedAfter(z.d.free, o, v, z.compactTs);
    case _ =>
  }

  // ---- Compaction -----------------------------------------------------

  lemma ScanKeeps(z: Zone, e: Event)
    requires Ample(z) && Enabled(z, e) && Checked(z, e) && e.ScanFree?
    ensures Ample(Apply(z, e))
  {
    DisciplineStep(z, e);
    forall i | 0 <= i < |e.recs|
      ensures e.recs[i].off in z.d.free && z.d.free[e.recs[i].off] == FreeValue(e.recs[i].len, e.recs[i].ts)
    {
      ListedOnDisk(e.recs, z.d.free, i);
    }
  }

  /** A merge clears only units of listed records, all of which are then merged, and no
      unit of a later one. */
  lemma {:induction false} MergeSpares(b: set<nat>, recs: seq<FreeRecord>, free: map<nat, FreeValue>, w: nat, t: nat)
    requires Apart(Extents(free)) && Stay(recs, free) && forall i :: 0 <= i < |recs| ==> recs[i].ts <= t
    ensures b <= MergeBits(b, recs, w) + Live(Below(free, t))
    ensures Live(After(free, t)) <= b ==> Live(After(free, t)) <= MergeBits(b, recs, w)
  {
    if recs != [] {
      var k := |recs| - 1;
      var r := recs[k];
      MergeSpares(b, recs[..k], free, w, t);
      LiveOf(Below(free, t), r.off);
      LiveDisjoint(Extents(free), map[r.off := r.len], After(free, t));
      LiveOf(map[r.off := r.len], r.off);
    }
  }

  lemma MergeKeeps(z: Zone, e: Event)
    requires Ample(z) && Enabled(z, e) && Checked(z, e) && e.MergeFree?
    ensures Ample(Apply(z, e))
  {
    var recs, w := z.phase.recs, z.compactTs;
    var t := MergeTs(recs, w);
    DisciplineStep(z, e);
    MergeTsOneOf(recs, w);
    MergeSpares(z.bits, recs, z.d.free, w, t);
    LivePart(Below(z.d.free, w), Below(z.d.free, t));
    LivePart(After(z.d.free, t), After(z.d.free, w));
  }

  lemma SnapshotKeeps(z: Zone, e: Event)
    requires Ample(z) && Enabled(z, e) && Checked(z, e) && (e.Anchor? || e.BuildSnapshot?)
    ensures Ample(Apply(z, e))
  {
    DisciplineStep(z, e);
    if e.Anchor? { QuietIff(z.bits, z.d.journal[e.slot..]); }
  }

  lemma BatchKeeps(z: Zone, e: Event)
    requires Ample(z) && Enabled(z, e) && Checked(z, e) && (e.BatchApplied? || e.BatchFails?)
    ensures Ample(Apply(z, e))
  {
    DisciplineStep(z, e);
    if e.BatchApplied? {
      var keys, v := z.phase.keys, z.phase.value;
      ReplayWrite(v, z.d.journal, Other);
      LivePart(Extents(z.d.free - keys), Extents(z.d.free));
      LivePart(After(z.d.free - keys, z.compactTs), After(z.d.free, z.compactTs));
    }
  }

  lemma RestartKeeps(z: Zone, e: Event)
    requires Ample(z) && Enabled(z, e) && Checked(z, e) && (e.RestartReplay? || e.RestartFullScan? || e.RestartEmpty?)
    ensures Ample(Apply(z, e))
  {
    DisciplineStep(z, e);
    if e.RestartFullScan? {
      ScanIsLive(e.records, z.d.busy);
      ReplayWrite(Snapshot(Live(z.d.busy), |z.d.journal|, 0), z.d.journal, Other);
    }
    if !e.RestartReplay? { AmpleWithoutFree(Apply(z, e)); }
  }

  lemma AmpleWithoutFree(z: Zone)
    requires ZoneDiscipline.Inv(z) && z.d.free == map[] && Load(z.d) <= z.bits && z.phase.Idle?
    ensures Ample(z)
  {
    assert Live(map[]) == {} && Extents(map[]) == map[];
    assert After(map[], z.compactTs) == map[] && After(map[], z.d.zone.compactTs) == map[];
  }

  lemma StepKeeps(z: Zone, e: Event)
    requires Ample(z) && Enabled(z, e) && Checked(z, e)
    ensures Ample(Apply(z, e))
  {
    match e
    case Claim(_, _) => ClaimKeeps(z, e);
    case PersistBusy(_) => PersistKeeps(z, e);
    case PersistFails(_) => RollBackKeeps(z, e);
    case Commit(_, _) => QuietKeeps(z, e);
    case OtherWrite => QuietKeeps(z, e);
    case FreeBlock(_, _, _) => FreeKeeps(z, e);
    case ScanFree(_) => ScanKeeps(z, e);
    case MergeFree => MergeKeeps(z, e);
    case Anchor(_) => SnapshotKeeps(z, e);
    case BuildSnapshot => SnapshotKeeps(z, e);
    case BatchApplied => BatchKeeps(z, e);
    case BatchFails => BatchKeeps(z, e);
    case _ => RestartKeeps(z, e);
  }

  lemma {:induction false} RunKeeps(z: Zone, es: seq<Event>)
    requires Ample(z) && Legal(z, es, Checked)
    ensures Ample(Run(z, es, Checked))
    decreases |es|
  {
    if es != [] {
      StepKeeps(z, es[0]);
      RunKeeps(Apply(z, es[0]), es[1..]);
    }
  }

  /** No run that makes these checks ever loses a live block, whatever is in flight when a
      compaction starts, however frees are stamped, and wherever a restart by replay
      falls. */
  lemma ReadyRunsAreSafe(es: seq<Event>)
    requires Legal(FreshZone, es, Checked)
    ensures Safe(Run(FreshZone, es, Checked))
  {
    FreshInv();
    assert Replay({}, []) == {};
    AmpleWithoutFree(FreshZone);
    RunKeeps(FreshZone, es);
  }

  // ---- Agreement of memory and replay, step by step -------------------

  /** A roll-back leaves memory holding whatever a replay would set, now or of a snapshot
      that is built, exactly when neither holds the claim. */
  lemma RollBackAgreesIff(z: Zone, o: nat)
    requires ZoneDiscipline.Inv(z) && o in z.pending && Load(z.d) <= z.bits
    requires z.phase.Built? ==> ReplayFrom(z.phase.value, z.d.journal) <= z.bits
    ensures var z' := RolledBack(z, o);
      (Load(z'.d) <= z'.bits && (z.phase.Built? ==> ReplayFrom(z.phase.value, z'.d.journal) <= z'.bits))
      <==> o !in Load(z.d) && (z.phase.Built? ==> o !in ReplayFrom(z.phase.value, z.d.journal))
  {
    LiveOf(z.pending, o);
    assert o in Units(o, z.pending[o]);
  }

  /** What the rest of an anchored compaction makes of the zone. */
  lemma FinishedCompaction(z: Zone)
    requires z.phase.Anchored? && z.phase.slot <= |z.d.journal|
    ensures var z' := Apply(Apply(z, BuildSnapshot), BatchApplied);
      && z'.d.zone.slot <= |z'.d.journal| && Load(z'.d) == Replay(z.bits, z.d.journal[z.phase.slot..])
      && z'.bits == z.bits && z'.pending == z.pending && z'.compactTs == z'.d.zone.compactTs == z.compactTs
      && z'.d.busy == z.d.busy && z'.d.free == z.d.free - z.phase.keys
  {
    ReplayWrite(Snapshot(z.bits, z.phase.slot, z.compactTs), z.d.journal, Other);
  }

  /** An applied compaction leaves memory holding whatever a replay would set exactly when
      no put after its anchor is for a clear extent. */
  lemma AnchorAgreesIff(z: Zone, slot: nat)
    requires z.phase.Merged? && Enabled(z, Anchor(slot))
    ensures var z' := Apply(Apply(Apply(z, Anchor(slot)), BuildSnapshot), BatchApplied);
      && z'.d.zone.slot <= |z'.d.journal|
      && (Load(z'.d) <= z'.bits <==> Quiet(z.bits, z.d.journal[slot..]))
  {
    FinishedCompaction(Apply(z, Anchor(slot)));
    QuietIff(z.bits, z.d.journal[slot..]);
    ReplayGrows(z.bits, z.d.journal[slot..]);
  }

  /** A full scan leaves memory holding whatever a replay would set, and all free records
      covered, exactly when no free record is left and nothing is replayed, from a
      snapshot it goes on with, that is not live. */
  lemma FullScanAgreesIff(z: Zone, recs: seq<BusyRecord>, written: bool)
    requires Ample(z) && ListsBusy(recs, z.d.busy)
    ensures ZoneDiscipline.Clean(Apply(z, RestartFullScan(recs, written)))
      <==> z.d.free == map[] && (written || Load(z.d) <= Live(z.d.busy))
  {
    ScanIsLive(recs, z.d.busy);
    ReplayWrite(Snapshot(Live(z.d.busy), |z.d.journal|, 0), z.d.journal, Other);
    if o :| o in z.d.free {
      assert Extents(z.d.free)[o] > 0;
      assert o in Units(o, z.d.free[o].len);
    }
  }

  // ---- With exact books -----------------------------------------------

  /** Memory and journal agree exactly when no free record on disk is already merged. */
  lemma CleanIff(z: Zone)
    requires Inv(z)
    ensures ZoneDiscipline.Clean(z) <==> NewerThan(z.d.free, z.compactTs)
  {
    if NewerThan(z.d.free, z.compactTs) {
      NewerIsClean(z);
    } else {
      var o :| o in z.d.free && z.d.free[o].ts <= z.compactTs;
      MergedIsClear(z, o);
    }
  }

  lemma NewerIsClean(z: Zone)
    requires Inv(z) && NewerThan(z.d.free, z.compactTs)
    ensures ZoneDiscipline.Clean(z)
  {
    NoneLeftIff(z);
    assert After(z.d.free, z.compactTs) == Extents(z.d.free);
    LivePart(Held(z), z.pending);
    forall o | o in z.d.free ensures Units(o, z.d.free[o].len) <= z.bits {
      LiveOf(Extents(z.d.free), o);
    }
  }

  /** The units of a merged record are clear. */
  lemma MergedIsClear(z: Zone, o: nat)
    requires Inv(z) && o in z.d.free && z.d.free[o].ts <= z.compactTs
    ensures o in Units(o, z.d.free[o].len) && o !in z.bits
  {
    var m := Extents(z.d.free);
    assert m[o] > 0;
    assert o in Units(o, m[o]);
    LiveDisjoint(m, map[o := m[o]], After(z.d.free, z.compactTs));
    LiveOf(map[o := m[o]], o);
  }

  /** The cheap test: the watermark in memory is the one of the snapshot. */
  lemma SameWatermarkIsReady(z: Zone)
    requires Inv(z) && z.phase.Idle? && z.compactTs == z.d.zone.compactTs
    ensures Ready(z) && ZoneDiscipline.Clean(z)
  {
    CleanIff(z);
  }

  /** Restarts, and a compaction that goes through, leave the zone ready. */
  lemma BecomesReady(z: Zone, e: Event)
    requires Inv(z) && Enabled(z, e) && Stamped(z, e)
    requires e.RestartReplay? || e.RestartFullScan? || e.RestartEmpty? || e.BatchApplied?
    ensures Ready(Apply(z, e)) && ZoneDiscipline.Clean(Apply(z, e))
  {
    ZoneExact.StepKeeps(z, e);
    CleanIff(Apply(z, e));
  }

  /** A ready zone stays ready until its next compaction starts. */
  lemma StaysReady(z: Zone, e: Event)
    requires Inv(z) && Enabled(z, e) && Stamped(z, e) && Ready(z) && !e.ScanFree?
    ensures Ready(Apply(z, e))
  {
    if e.RestartReplay? || e.RestartFullScan? || e.RestartEmpty? { BecomesReady(z, e); }
  }
}
