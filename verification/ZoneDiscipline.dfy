/** Safety for extents of any size.

A claim may come at any time, also while a compaction is under way, if it fits: a
replay, now or of the snapshot being written, sets all of its extent or none of it,
and no free record, on disk or listed for a merge, reaches into it.  Every claim fits
when no compaction is under way and memory and journal agree (`Clean`), which is what
I4 and I5 of the design are for.  Claims may be in flight when a compaction starts;
batches, snapshot writes and persists may fail, and anchors be lost; restarts may
use either strategy.  A free names the extent of a busy record, or of a free record
when it is retried; a commit writes a record that is still there; a persist that
reports an error was not applied; a restart comes up empty only when nothing is
live. */
module ZoneDiscipline {
  import opened Bitmap
  import opened ZoneProtocol

  /** Memory and journal agree: a restart now would set no unit that is clear, and no
      free record covers a clear unit. */
  ghost predicate Clean(z: Zone) {
    && z.d.zone.slot <= |z.d.journal| && Load(z.d) <= z.bits
    && (forall o :: o in z.d.free ==> Units(o, z.d.free[o].len) <= z.bits)
  }

  ghost predicate Disciplined(z: Zone, e: Event) {
    Orderly(z, e) && (e.Claim? ==> ClaimFits(z, e.off, e.len))
  }

  ghost predicate ClaimFits(z: Zone, o: nat, n: nat) {
    && z.d.zone.slot <= |z.d.journal| && Whole(Units(o, n), Load(z.d))
    && FreeApart(z.d, Units(o, n))
    && (z.phase.Scanned? ==> ListedApart(z.phase.recs, Units(o, n)))
    && (z.phase.Built? ==>
          z.phase.value.slot <= |z.d.journal| && Whole(Units(o, n), ReplayFrom(z.phase.value, z.d.journal)))
  }

  ghost predicate Whole(us: set<nat>, b: set<nat>) {
    us <= b || us !! b
  }

  /** In a clean zone with no compaction under way every claim fits. */
  lemma CleanFits(z: Zone, o: nat, n: nat)
    requires z.phase.Idle? && Clean(z) && Enabled(z, Claim(o, n))
    ensures ClaimFits(z, o, n)
  {
  }

  /** What is asked of the steps other than claims. */
  ghost predicate Orderly(z: Zone, e: Event) {
    && (e.FreeBlock? ==> Recorded(z.d, e.off, e.len) || Retried(z.d, e.off, e.len))
    && (e.Commit? ==> Recorded(z.d, e.off, e.len))
    && !e.PersistLost?
    && (e.RestartEmpty? ==> z.d.busy == map[])
  }

  /** The live and the claimed units. */
  ghost function Taken(z: Zone): set<nat> {
    Live(z.d.busy) + Live(z.pending)
  }

  ghost predicate Inv(z: Zone) {
    && z.d.zone.slot <= |z.d.journal|
    && z.d.busy.Keys !! z.d.free.Keys
    && Apart(z.d.busy) && Apart(z.pending) && Live(z.d.busy) !! Live(z.pending)
    && z.d.busy.Keys !! z.pending.Keys
    && Taken(z) <= z.bits
    && Live(z.d.busy) <= Load(z.d)
    && WholeOrNot(z.pending, Load(z.d))
    && FreeApart(z.d, Taken(z))
    && PhaseInv(z)
  }

  /** Each claim is replayed already, as part of a snapshot, or not at all. */
  ghost predicate WholeOrNot(m: map<nat, nat>, b: set<nat>) {
    forall o :: o in m ==> Whole(Units(o, m[o]), b)
  }

  /** No free record covers a unit of `live`. */
  ghost predicate FreeApart(d: Durable, live: set<nat>) {
    forall o :: o in d.free ==> Units(o, d.free[o].len) !! live
  }

  ghost predicate PhaseInv(z: Zone) {
    match z.phase
    case Idle => true
    case Scanned(recs) => ListedApart(recs, Taken(z))
    case Merged(_) => true
    case Anchored(_, slot) => slot <= |z.d.journal|
    case Built(_, v) =>
      && v.slot <= |z.d.journal| && Live(z.d.busy) <= ReplayFrom(v, z.d.journal)
      && WholeOrNot(z.pending, ReplayFrom(v, z.d.journal))
  }

  ghost predicate ListedApart(recs: seq<FreeRecord>, live: set<nat>) {
    forall i :: 0 <= i < |recs| ==> Units(recs[i].off, recs[i].len) !! live
  }

  // ---- One lemma per kind of step -------------------------------------

  lemma ClaimKeeps(z: Zone, e: Event)
    requires Inv(z) && Enabled(z, e) && Disciplined(z, e) && e.Claim?
    ensures Inv(Apply(z, e))
  {
    ClaimKeepsIff(z, e.off, e.len);
  }

  /** A claim keeps the invariant exactly when it fits. */
  lemma ClaimKeepsIff(z: Zone, o: nat, n: nat)
    requires Inv(z) && Enabled(z, Claim(o, n))
    ensures Inv(Apply(z, Claim(o, n))) <==> ClaimFits(z, o, n)
  {
    var z' := Apply(z, Claim(o, n));
    assert o in Units(o, n);
    if o in z.pending { LiveOf(z.pending, o); }
    if o in z.d.busy { LiveOf(z.d.busy, o); }
    LiveInsert(z.pending, o, n);
    forall a | a in z.pending ensures Units(a, z.pending[a]) !! Units(o, n) { LiveOf(z.pending, a); }
    if Inv(z') {
      assert z'.pending[o] == n;
    }
  }

  /** The put of a claim that is whole or not is replayed in full. */
  lemma PutWhole(m: map<nat, nat>, o: nat, s: Snapshot, journal: seq<JournalOp>)
    requires s.slot <= |journal| && Apart(m) && o in m && WholeOrNot(m, ReplayFrom(s, journal))
    ensures ReplayFrom(s, journal + [PutBusy(o, m[o])]) == ReplayFrom(s, journal) + Units(o, m[o])
    ensures WholeOrNot(m - {o}, ReplayFrom(s, journal + [PutBusy(o, m[o])]))
  {
    ReplayWrite(s, journal, PutBusy(o, m[o]));
  }

  lemma PersistBusyKeeps(z: Zone, e: Event)
    requires Inv(z) && Enabled(z, e) && e.PersistBusy?
    ensures Inv(Apply(z, e))
  {
    var o, n := e.off, z.pending[e.off];
    LiveOf(z.pending, o);
    LiveRemove(z.pending, o);
    LiveInsert(z.d.busy, o, n);
    assert Taken(Apply(z, e)) == Taken(z);
    PutWhole(z.pending, o, z.d.zone, z.d.journal);
    forall a | a in z.d.busy ensures Units(a, z.d.busy[a]) !! Units(o, n) { LiveOf(z.d.busy, a); }
    if z.phase.Built? { PutWhole(z.pending, o, z.phase.value, z.d.journal); }
  }

  lemma PersistFailsKeeps(z: Zone, e: Event)
    requires Inv(z) && Enabled(z, e) && e.PersistFails?
    ensures Inv(Apply(z, e))
  {
    var o := e.off;
    LiveOf(z.pending, o);
    LiveRemove(z.pending, o);
  }

  /** A write that leaves the busy records and replays to the same bitmap. */
  lemma QuietWriteKeeps(z: Zone, e: Event)
    requires Inv(z) && Enabled(z, e) && Disciplined(z, e) && (e.Commit? || e.OtherWrite?)
    ensures Inv(Apply(z, e))
  {
    var z' := Apply(z, e);
    var op := if e.Commit? then PutBusy(e.off, e.len) else Other;
    ReplayWrite(z.d.zone, z.d.journal, op);
    if e.Commit? {
      LiveOf(z.d.busy, e.off);
      assert z.d.free - {e.off} == z.d.free && z.d.busy[e.off := e.len] == z.d.busy;
    }
    if z.phase.Built? { ReplayWrite(z.phase.value, z.d.journal, op); }
    assert Load(z'.d) == Load(z.d);
  }

  lemma FreeKeeps(z: Zone, e: Event)
    requires Inv(z) && Enabled(z, e) && Disciplined(z, e) && e.FreeBlock?
    ensures Inv(Apply(z, e))
  {
    var o := e.off;
    var z' := Apply(z, e);
    if Recorded(z.d, o, e.len) {
      LiveOf(z.d.busy, o);
      LiveRemove(z.d.busy, o);
    } else {
      assert z'.d.busy == z.d.busy;
    }
    ReplayWrite(z.d.zone, z.d.journal, DeleteBusy(o));
    if z.phase.Built? { ReplayWrite(z.phase.value, z.d.journal, DeleteBusy(o)); }
  }

  // ---- Compaction -----------------------------------------------------

  /** Merging records apart from `live` keeps every live unit. */
  lemma {:induction false} MergeKeepsLive(bits: set<nat>, recs: seq<FreeRecord>, w: nat, live: set<nat>)
    requires live <= bits && ListedApart(recs, live)
    ensures live <= MergeBits(bits, recs, w) <= bits
  {
    if recs != [] {
      var k := |recs| - 1;
      MergeKeepsLive(bits, recs[..k], w, live);
      assert Units(recs[k].off, recs[k].len) !! live;
    }
  }

  lemma CompactionKeeps(z: Zone, e: Event)
    requires Inv(z) && Enabled(z, e) && Disciplined(z, e)
    requires e.ScanFree? || e.MergeFree? || e.Anchor? || e.BuildSnapshot?
    ensures Inv(Apply(z, e))
  {
    match e
    case ScanFree(recs) =>
      forall i | 0 <= i < |recs| ensures Units(recs[i].off, recs[i].len) !! Taken(z) {
        ListedOnDisk(recs, z.d.free, i);
      }
    case MergeFree => MergeKeepsLive(z.bits, z.phase.recs, z.compactTs, Taken(z));
    case BuildSnapshot =>
      ReplayGrows(z.bits, z.d.journal[z.phase.slot..]);
      forall o | o in z.pending ensures Units(o, z.pending[o]) <= z.bits { LiveOf(z.pending, o); }
    case _ =>
  }

  lemma BatchKeeps(z: Zone, e: Event)
    requires Inv(z) && Enabled(z, e) && (e.BatchApplied? || e.BatchFails?)
    ensures Inv(Apply(z, e))
  {
    ReplayWrite(z.phase.value, z.d.journal, Other);
  }

  lemma RestartKeeps(z: Zone, e: Event)
    requires Inv(z) && Enabled(z, e) && Orderly(z, e) && (e.RestartReplay? || e.RestartFullScan? || e.RestartEmpty?)
    ensures Inv(Apply(z, e))
  {
    assert Live(map[]) == {};
    if e.RestartFullScan? {
      ScanIsLive(e.records, z.d.busy);
      assert Replay(Live(z.d.busy), [Other]) == Live(z.d.busy) by { assert [Other][..0] == []; }
      assert (z.d.journal + [Other])[|z.d.journal|..] == [Other];
    }
  }

  lemma StepKeeps(z: Zone, e: Event)
    requires Inv(z) && Enabled(z, e) && Disciplined(z, e)
    ensures Inv(Apply(z, e))
  {
    match e
    case Claim(_, _) => ClaimKeeps(z, e);
    case PersistBusy(_) => PersistBusyKeeps(z, e);
    case PersistFails(_) => PersistFailsKeeps(z, e);
    case Commit(_, _) => QuietWriteKeeps(z, e);
    case OtherWrite => QuietWriteKeeps(z, e);
    case FreeBlock(_, _, _) => FreeKeeps(z, e);
    case BatchApplied => BatchKeeps(z, e);
    case BatchFails => BatchKeeps(z, e);
    case RestartReplay => RestartKeeps(z, e);
    case RestartFullScan(_, _) => RestartKeeps(z, e);
    case RestartEmpty => RestartKeeps(z, e);
    case _ => CompactionKeeps(z, e);
  }

  // ---- Whole runs -----------------------------------------------------

  lemma FreshIsCleanAndInv()
    ensures Inv(FreshZone) && Clean(FreshZone)
  {
    assert Live(map[]) == {};
    assert Replay({}, []) == {};
  }

  lemma {:induction false} RunKeepsInv(z: Zone, es: seq<Event>)
    requires Inv(z) && Legal(z, es, Disciplined)
    ensures Inv(Run(z, es, Disciplined))
    decreases |es|
  {
    if es != [] {
      StepKeeps(z, es[0]);
      RunKeepsInv(Apply(z, es[0]), es[1..]);
    }
  }

  /** No run of claims, persists, frees, compactions, failures and restarts
      that keeps the discipline ever loses a live block. */
  lemma DisciplinedRunsAreSafe(es: seq<Event>)
    requires Legal(FreshZone, es, Disciplined)
    ensures Safe(Run(FreshZone, es, Disciplined))
  {
    FreshIsCleanAndInv();
    RunKeepsInv(FreshZone, es);
  }
}
