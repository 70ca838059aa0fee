/** The watermark (I7) on cells.  Races need no checking as long as a full scan finds
no free record left: frees name the cell of a busy record, or retry one not yet
merged, and commits write a record that is still there.  Then every free record
above a watermark still has its cell set, so no claim and no scan can be raced. */
module ZoneWatermark {
  import opened Bitmap
  import opened ZoneProtocol
  import opened ZoneGrid

  ghost predicate Plain(g: Grid, z: Zone, e: Event) {
    && OnCells(g, e) && !e.PersistLost?
    && (e.RestartFullScan? || e.RestartEmpty? ==> z.d.free == map[])
    && (e.RestartEmpty? ==> z.d.busy == map[])
    && (e.FreeBlock? ==> Recorded(z.d, e.off, e.len) || Unmerged(z, e.off, e.len))
    && (e.Commit? ==> Recorded(z.d, e.off, e.len))
  }

  /** No compaction is under way and the free record is above both watermarks. */
  ghost predicate Unmerged(z: Zone, o: nat, n: nat) {
    && z.phase.Idle? && Retried(z.d, o, n)
    && z.d.free[o].ts > z.compactTs && z.d.free[o].ts > z.d.zone.compactTs
  }

  /** Free records newer than `w`, outside `keys`, still have their bits set. */
  ghost predicate FreshCovered(free: map<nat, FreeValue>, w: nat, keys: set<nat>, b: set<nat>) {
    forall o :: o in free && free[o].ts > w && o !in keys ==> Units(o, free[o].len) <= b
  }

  /** Every free record above a watermark is still set: in memory, in a replay, and in
      a replay of the snapshot about to be written. */
  ghost predicate Fresh(g: Grid, z: Zone) {
    && FreshCovered(z.d.free, z.compactTs, {}, z.bits)
    && (forall o :: o in z.pending ==> !FreshFree(z, o))
    && z.d.zone.slot <= |z.d.journal| && FreshCovered(z.d.free, z.d.zone.compactTs, {}, Load(z.d))
    && (z.phase.Scanned? ==> ListedStays(z, z.phase.recs))
    && (z.phase.Built? ==>
          && z.phase.value.slot <= |z.d.journal| && z.phase.value.compactTs <= z.compactTs
          && FreshCovered(z.d.free, z.phase.value.compactTs, z.phase.keys, ReplayFrom(z.phase.value, z.d.journal)))
  }

  ghost predicate ListedStays(z: Zone, recs: seq<FreeRecord>) {
    forall i :: 0 <= i < |recs| && recs[i].ts > z.compactTs ==>
      recs[i].off in z.d.free && z.d.free[recs[i].off] == FreeValue(recs[i].len, recs[i].ts)
  }

  /** A cell that can be claimed has no free record above the watermark. */
  lemma ClaimableIsStale(g: Grid, z: Zone, o: nat, n: nat)
    requires Inv(g, z) && Fresh(g, z) && Enabled(z, Claim(o, n)) && Cell(g, o, n)
    ensures !FreshFree(z, o) && !ToBeCleared(z, o)
  {
    assert o in Units(o, n);
    assert o in z.d.free ==> z.d.free[o].len == n;
  }

  /** With the watermark invariant no step is raced. */
  lemma PlainIsUnraced(g: Grid, z: Zone, e: Event)
    requires Inv(g, z) && Fresh(g, z) && Enabled(z, e) && Plain(g, z, e)
    ensures Unraced(z, e)
  {
    if e.Claim? { ClaimableIsStale(g, z, e.off, e.len); }
  }

  // ---- Steps ----------------------------------------------------------

  lemma ClaimKeeps(g: Grid, z: Zone, e: Event)
    requires Inv(g, z) && Fresh(g, z) && Enabled(z, e) && Plain(g, z, e) && e.Claim?
    ensures Fresh(g, Apply(z, e))
  {
    ClaimableIsStale(g, z, e.off, e.len);
  }

  lemma PutKeeps(g: Grid, z: Zone, o: nat, n: nat)
    requires Inv(g, z) && Fresh(g, z) && Cell(g, o, n) && !FreshFree(z, o)
    ensures Fresh(g, z.(d := BusyWritten(z.d, o, n), pending := z.pending - {o}))
  {
    WriteGrows(g, z.d.zone, z.d.journal, PutBusy(o, n));
    if z.phase.Built? { WriteGrows(g, z.phase.value, z.d.journal, PutBusy(o, n)); }
  }

  lemma PersistFailsKeeps(g: Grid, z: Zone, e: Event)
    requires Inv(g, z) && Fresh(g, z) && Enabled(z, e) && e.PersistFails?
    ensures Fresh(g, Apply(z, e))
  {
    AlignedSet(g, z.bits, e.off);
  }

  lemma OtherWriteKeeps(g: Grid, z: Zone, e: Event)
    requires Inv(g, z) && Fresh(g, z) && Enabled(z, e) && e.OtherWrite?
    ensures Fresh(g, Apply(z, e))
  {
    WriteGrows(g, z.d.zone, z.d.journal, Other);
    if z.phase.Built? { WriteGrows(g, z.phase.value, z.d.journal, Other); }
  }

  lemma FreeKeeps(g: Grid, z: Zone, e: Event)
    requires Inv(g, z) && Fresh(g, z) && Enabled(z, e) && Plain(g, z, e) && e.FreeBlock?
    ensures Fresh(g, Apply(z, e))
  {
    var o, v, op := e.off, FreeValue(e.len, e.ts), DeleteBusy(e.off);
    WriteGrows(g, z.d.zone, z.d.journal, op);
    FreshAfterFree(z.d.free, o, v, z.compactTs, {}, z.bits);
    FreshAfterFree(z.d.free, o, v, z.d.zone.compactTs, {}, Load(z.d));
    if z.phase.Built? {
      var s := z.phase.value;
      WriteGrows(g, s, z.d.journal, op);
      FreshAfterFree(z.d.free, o, v, s.compactTs, z.phase.keys, ReplayFrom(s, z.d.journal));
    }
  }

  lemma FreshAfterFree(free: map<nat, FreeValue>, o: nat, v: FreeValue, w: nat, keys: set<nat>, b: set<nat>)
    requires Units(o, v.len) <= b && FreshCovered(free, w, keys, b)
    ensures FreshCovered(free[o := v], w, keys, b)
  {
  }

  // ---- Compaction -----------------------------------------------------

  lemma {:induction false} MergeTsBounds(recs: seq<FreeRecord>, w: nat)
    ensures w <= MergeTs(recs, w)
    ensures forall i :: 0 <= i < |recs| ==> recs[i].ts <= MergeTs(recs, w)
  {
    if recs != [] { MergeTsBounds(recs[..|recs| - 1], w); }
  }

  lemma MergeKeeps(g: Grid, z: Zone, e: Event)
    requires Inv(g, z) && Fresh(g, z) && Enabled(z, e) && e.MergeFree?
    ensures Fresh(g, Apply(z, e))
  {
    MergeTsBounds(z.phase.recs, z.compactTs);
    MergeClearsOnly(g, z.bits, z.phase.recs, z.compactTs);
  }

  lemma CompactionKeeps(g: Grid, z: Zone, e: Event)
    requires Inv(g, z) && Fresh(g, z) && Enabled(z, e) && (e.ScanFree? || e.Anchor? || e.BuildSnapshot?)
    ensures Fresh(g, Apply(z, e))
  {
    match e
    case ScanFree(recs) =>
      forall i | 0 <= i < |recs|
        ensures recs[i].off in z.d.free && z.d.free[recs[i].off] == FreeValue(recs[i].len, recs[i].ts)
      {
        ListedOnDisk(recs, z.d.free, i);
      }
    case BuildSnapshot => ReplayGrows(z.bits, z.d.journal[z.phase.slot..]);
    case _ =>
  }

  lemma BatchKeeps(g: Grid, z: Zone, e: Event)
    requires Inv(g, z) && Fresh(g, z) && Enabled(z, e) && (e.BatchApplied? || e.BatchFails?)
    ensures Fresh(g, Apply(z, e))
  {
    ReplayWrite(z.phase.value, z.d.journal, Other);
  }

  lemma RestartKeeps(g: Grid, z: Zone, e: Event)
    requires Inv(g, z) && Fresh(g, z) && Enabled(z, e) && Plain(g, z, e)
    requires e.RestartReplay? || e.RestartFullScan? || e.RestartEmpty?
    ensures Fresh(g, Apply(z, e))
  {
  }

  lemma StepKeeps(g: Grid, z: Zone, e: Event)
    requires Inv(g, z) && Fresh(g, z) && Enabled(z, e) && Plain(g, z, e)
    ensures OnGrid(g, z, e) && Inv(g, Apply(z, e)) && Fresh(g, Apply(z, e))
  {
    PlainIsUnraced(g, z, e);
    ZoneGrid.StepKeeps(g, z, e);
    FreshKeeps(g, z, e);
  }

  lemma FreshKeeps(g: Grid, z: Zone, e: Event)
    requires Inv(g, z) && Fresh(g, z) && Enabled(z, e) && Plain(g, z, e)
    ensures Fresh(g, Apply(z, e))
  {
    match e
    case Claim(_, _) => ClaimKeeps(g, z, e);
    case PersistBusy(o) => PutKeeps(g, z, o, z.pending[o]);
    case Commit(o, n) =>
      PutKeeps(g, z, o, n);
      assert z.pending - {o} == z.pending;
    case PersistFails(_) => PersistFailsKeeps(g, z, e);
    case MergeFree => MergeKeeps(g, z, e);
    case BatchApplied => BatchKeeps(g, z, e);
    case BatchFails => BatchKeeps(g, z, e);
    case OtherWrite => OtherWriteKeeps(g, z, e);
    case FreeBlock(_, _, _) => FreeKeeps(g, z, e);
    case RestartReplay => RestartKeeps(g, z, e);
    case RestartFullScan(_, _) => RestartKeeps(g, z, e);
    case RestartEmpty => RestartKeeps(g, z, e);
    case _ => CompactionKeeps(g, z, e);
  }

  lemma {:induction false} PlainRun(g: Grid, z: Zone, es: seq<Event>)
    requires Inv(g, z) && Fresh(g, z) && Legal(z, es, (y, e) => Plain(g, y, e))
    ensures Legal(z, es, (y, e) => OnGrid(g, y, e))
    ensures Run(z, es, (y, e) => Plain(g, y, e)) == Run(z, es, (y, e) => OnGrid(g, y, e))
    decreases |es|
  {
    if es != [] {
      StepKeeps(g, z, es[0]);
      PlainRun(g, Apply(z, es[0]), es[1..]);
    }
  }

  /** Claims may race with compaction, batches may fail and the zone be used on, anchors
      may be lost: no step of such a run is raced, and no live block is lost. */
  lemma PlainRunsAreSafe(g: Grid, es: seq<Event>)
    requires Legal(FreshZone, es, (y, e) => Plain(g, y, e))
    ensures Legal(FreshZone, es, (y, e) => OnGrid(g, y, e))
    ensures Safe(Run(FreshZone, es, (y, e) => Plain(g, y, e)))
  {
    assert Replay({}, []) == {};
    FreshInv(g);
    PlainRun(g, FreshZone, es);
    GridRunsAreSafe(g, es);
  }
}
