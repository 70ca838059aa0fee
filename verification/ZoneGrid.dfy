/** Safety without the discipline.  When every block a zone ever hands out is
a cell of one fixed partition (as when all requests use one unit), claims may
race with compaction, a compaction batch may fail and the zone be used on, the
anchor may be lost, frees may come late or twice, and a full scan may forget free
records.  What is needed is that no step puts a claim or a live block where the
merge of a scan under way is going to clear it (`Unraced`); this is exact.
`ZoneWatermark` shows that it needs no checking unless a full scan forgets. */
module ZoneGrid {
  import opened Bitmap
  import opened ZoneProtocol

  /** A partition into cells, by offset. */
  type Grid = g: map<nat, nat> | Apart(g) ghost witness map[]

  ghost predicate Cell(g: Grid, o: nat, n: nat) {
    o in g && g[o] == n
  }

  ghost predicate OnCells(g: Grid, e: Event) {
    match e
    case Claim(o, n) => Cell(g, o, n)
    case FreeBlock(o, n, _) => Cell(g, o, n)
    case Commit(o, n) => Cell(g, o, n)
    case _ => true
  }

  /** The merge of the scan under way is going to clear the cell at `o`. */
  ghost predicate ToBeCleared(z: Zone, o: nat) {
    z.phase.Scanned? && exists i ::
      0 <= i < |z.phase.recs| && z.phase.recs[i].off == o && z.phase.recs[i].ts > z.compactTs
  }

  /** There is a free record of the cell above the watermark, which a scan would list. */
  predicate FreshFree(z: Zone, o: nat) {
    o in z.d.free && z.d.free[o].ts > z.compactTs
  }

  /** A claim takes no cell that is going to be cleared; a scan starts only when it
      lists no claimed cell as newly freed; a commit writes a cell that is set, is not
      claimed and is not going to be cleared; a persist that reports an error was not
      applied; a zone comes up empty only when nothing is live. */
  ghost predicate Unraced(z: Zone, e: Event) {
    match e
    case Claim(o, _) => !ToBeCleared(z, o)
    case ScanFree(_) => forall o :: o in z.pending ==> !FreshFree(z, o)
    case Commit(o, n) => Units(o, n) <= z.bits && o !in z.pending && !ToBeCleared(z, o)
    case PersistLost(_) => false
    case RestartEmpty => z.d.busy == map[]
    case _ => true
  }

  ghost predicate OnGrid(g: Grid, z: Zone, e: Event) {
    OnCells(g, e) && Unraced(z, e)
  }

  // ---- Invariant ------------------------------------------------------

  /** Every cell is entirely in `b` or entirely out of it. */
  ghost predicate Aligned(g: Grid, b: set<nat>) {
    forall o :: o in g ==> Units(o, g[o]) <= b || Units(o, g[o]) !! b
  }

  ghost predicate Covered(m: map<nat, nat>, b: set<nat>) {
    forall o :: o in m ==> Units(o, m[o]) <= b
  }

  ghost predicate PutsCells(g: Grid, ops: seq<JournalOp>) {
    forall i :: 0 <= i < |ops| && ops[i].PutBusy? ==> Cell(g, ops[i].off, ops[i].len)
  }

  ghost predicate CellsOnly(g: Grid, d: Durable) {
    && (forall o :: o in d.busy ==> Cell(g, o, d.busy[o]))
    && (forall o :: o in d.free ==> Cell(g, o, d.free[o].len))
    && PutsCells(g, d.journal)
  }

  ghost predicate DiskInv(g: Grid, d: Durable) {
    && CellsOnly(g, d) && d.busy.Keys !! d.free.Keys
    && d.zone.slot <= |d.journal| && Aligned(g, d.zone.bits) && Covered(d.busy, Load(d))
  }

  ghost predicate MemoryInv(g: Grid, z: Zone) {
    && (forall o :: o in z.pending ==> Cell(g, o, z.pending[o]))
    && z.d.busy.Keys !! z.pending.Keys
    && Aligned(g, z.bits) && Covered(z.d.busy, z.bits) && Covered(z.pending, z.bits)
  }

  ghost predicate Inv(g: Grid, z: Zone) {
    DiskInv(g, z.d) && MemoryInv(g, z) && PhaseInv(g, z)
  }

  ghost predicate PhaseInv(g: Grid, z: Zone) {
    match z.phase
    case Idle => true
    case Scanned(recs) =>
      && (forall i :: 0 <= i < |recs| ==> Cell(g, recs[i].off, recs[i].len))
      && (forall i :: 0 <= i < |recs| && recs[i].ts > z.compactTs ==>
            recs[i].off !in z.d.busy && recs[i].off !in z.pending)
    case Merged(_) => true
    case Anchored(_, slot) => slot <= |z.d.journal|
    case Built(_, v) =>
      v.slot <= |z.d.journal| && Aligned(g, v.bits) && Covered(z.d.busy, ReplayFrom(v, z.d.journal))
  }

  // ---- Cells ----------------------------------------------------------

  lemma CellsApart(g: Grid, a: nat, b: nat)
    requires a in g && b in g && a != b
    ensures Units(a, g[a]) !! Units(b, g[b])
  {
  }

  lemma AlignedSet(g: Grid, b: set<nat>, o: nat)
    requires Aligned(g, b) && o in g
    ensures Aligned(g, SetRange(b, o, g[o])) && Aligned(g, ClearRange(b, o, g[o]))
    ensures b <= SetRange(b, o, g[o]) && Units(o, g[o]) <= SetRange(b, o, g[o])
    ensures forall a :: a in g && a != o && Units(a, g[a]) <= b ==> Units(a, g[a]) <= ClearRange(b, o, g[o])
  {
    forall a | a in g && a != o ensures Units(a, g[a]) !! Units(o, g[o]) { CellsApart(g, a, o); }
  }

  lemma {:induction false} AlignedReplay(g: Grid, b: set<nat>, ops: seq<JournalOp>)
    requires Aligned(g, b) && PutsCells(g, ops)
    ensures Aligned(g, Replay(b, ops))
  {
    if ops != [] {
      var k := |ops| - 1;
      AlignedReplay(g, b, ops[..k]);
      if ops[k].PutBusy? { AlignedSet(g, Replay(b, ops[..k]), ops[k].off); }
    }
  }

  /** One more journal entry: the replayed bitmap grows, and covers a put. */
  lemma WriteGrows(g: Grid, s: Snapshot, journal: seq<JournalOp>, op: JournalOp)
    requires s.slot <= |journal| && Aligned(g, s.bits) && PutsCells(g, journal)
    requires op.PutBusy? ==> Cell(g, op.off, op.len)
    ensures PutsCells(g, journal + [op])
    ensures ReplayFrom(s, journal) <= ReplayFrom(s, journal + [op])
    ensures op.PutBusy? ==> Units(op.off, op.len) <= ReplayFrom(s, journal + [op])
  {
    ReplayWrite(s, journal, op);
    AlignedReplay(g, s.bits, journal[s.slot..]);
    if op.PutBusy? { AlignedSet(g, ReplayFrom(s, journal), op.off); }
  }

  // ---- Steps ----------------------------------------------------------

  lemma ClaimKeeps(g: Grid, z: Zone, e: Event)
    requires Inv(g, z) && Enabled(z, e) && OnGrid(g, z, e) && e.Claim?
    ensures Inv(g, Apply(z, e))
  {
    AlignedSet(g, z.bits, e.off);
    assert e.off in Units(e.off, e.len);
  }

  /** A busy record is written for a cell that is set and not going to be cleared. */
  lemma PutKeeps(g: Grid, z: Zone, o: nat, n: nat)
    requires Inv(g, z) && Cell(g, o, n) && Units(o, n) <= z.bits && !ToBeCleared(z, o)
    ensures Inv(g, z.(d := BusyWritten(z.d, o, n), pending := z.pending - {o}))
  {
    PutOnDisk(g, z.d, o, n);
    if z.phase.Built? { WriteGrows(g, z.phase.value, z.d.journal, PutBusy(o, n)); }
  }

  lemma PutOnDisk(g: Grid, d: Durable, o: nat, n: nat)
    requires DiskInv(g, d) && Cell(g, o, n)
    ensures DiskInv(g, BusyWritten(d, o, n))
  {
    WriteGrows(g, d.zone, d.journal, PutBusy(o, n));
  }

  lemma PersistFailsKeeps(g: Grid, z: Zone, e: Event)
    requires Inv(g, z) && Enabled(z, e) && e.PersistFails?
    ensures Inv(g, Apply(z, e))
  {
    AlignedSet(g, z.bits, e.off);
  }

  lemma OtherWriteKeeps(g: Grid, z: Zone, e: Event)
    requires Inv(g, z) && Enabled(z, e) && e.OtherWrite?
    ensures Inv(g, Apply(z, e))
  {
    WriteGrows(g, z.d.zone, z.d.journal, Other);
    if z.phase.Built? { WriteGrows(g, z.phase.value, z.d.journal, Other); }
  }

  lemma FreeKeeps(g: Grid, z: Zone, e: Event)
    requires Inv(g, z) && Enabled(z, e) && OnGrid(g, z, e) && e.FreeBlock?
    ensures Inv(g, Apply(z, e))
  {
    WriteGrows(g, z.d.zone, z.d.journal, DeleteBusy(e.off));
    if z.phase.Built? { WriteGrows(g, z.phase.value, z.d.journal, DeleteBusy(e.off)); }
  }

  // ---- Compaction -----------------------------------------------------

  /** A merge clears no cell but those of the records above the watermark. */
  lemma {:induction false} MergeClearsOnly(g: Grid, b: set<nat>, recs: seq<FreeRecord>, w: nat)
    requires Aligned(g, b)
    requires forall i :: 0 <= i < |recs| ==> Cell(g, recs[i].off, recs[i].len)
    ensures Aligned(g, MergeBits(b, recs, w))
    ensures forall a :: a in g && Units(a, g[a]) <= b
              && (forall i :: 0 <= i < |recs| && recs[i].off == a ==> recs[i].ts <= w)
              ==> Units(a, g[a]) <= MergeBits(b, recs, w)
  {
    if recs != [] {
      var k := |recs| - 1;
      MergeClearsOnly(g, b, recs[..k], w);
      AlignedSet(g, MergeBits(b, recs[..k], w), recs[k].off);
    }
  }

  lemma MergeKeeps(g: Grid, z: Zone, e: Event)
    requires Inv(g, z) && Enabled(z, e) && e.MergeFree?
    ensures Inv(g, Apply(z, e))
  {
    MergeClearsOnly(g, z.bits, z.phase.recs, z.compactTs);
  }

  lemma CompactionKeeps(g: Grid, z: Zone, e: Event)
    requires Inv(g, z) && Enabled(z, e) && OnGrid(g, z, e) && (e.ScanFree? || e.Anchor? || e.BuildSnapshot?)
    ensures Inv(g, Apply(z, e))
  {
    match e
    case ScanFree(recs) =>
      forall i | 0 <= i < |recs|
        ensures recs[i].off in z.d.free && z.d.free[recs[i].off] == FreeValue(recs[i].len, recs[i].ts)
      {
        ListedOnDisk(recs, z.d.free, i);
      }
    case BuildSnapshot => ReplayGrows(z.bits, z.d.journal[z.phase.slot..]);
    case _ =>
  }

  lemma BatchKeeps(g: Grid, z: Zone, e: Event)
    requires Inv(g, z) && Enabled(z, e) && (e.BatchApplied? || e.BatchFails?)
    ensures Inv(g, Apply(z, e))
  {
    ReplayWrite(z.phase.value, z.d.journal, Other);
  }

  lemma RestartReplayKeeps(g: Grid, z: Zone, e: Event)
    requires Inv(g, z) && Enabled(z, e) && e.RestartReplay?
    ensures Inv(g, Apply(z, e))
  {
    AlignedReplay(g, z.d.zone.bits, z.d.journal[z.d.zone.slot..]);
  }

  lemma RestartFullScanKeeps(g: Grid, z: Zone, e: Event)
    requires Inv(g, z) && Enabled(z, e) && e.RestartFullScan?
    ensures Inv(g, Apply(z, e))
  {
    ScanOnGrid(g, e.records, z.d.busy);
    SnapshotOnDisk(g, z.d, Live(z.d.busy));
  }

  /** A snapshot of the scanned bitmap at the end of the journal. */
  lemma SnapshotOnDisk(g: Grid, d: Durable, b: set<nat>)
    requires DiskInv(g, d) && Aligned(g, b) && Covered(d.busy, b)
    ensures DiskInv(g, Write(d, Other).(zone := Snapshot(b, |d.journal|, 0)))
  {
    WriteGrows(g, d.zone, d.journal, Other);
    ReplayWrite(Snapshot(b, |d.journal|, 0), d.journal, Other);
  }

  lemma ScanOnGrid(g: Grid, recs: seq<BusyRecord>, busy: map<nat, nat>)
    requires ListsBusy(recs, busy) && forall o :: o in busy ==> Cell(g, o, busy[o])
    ensures ScanBits(recs) == Live(busy) && Covered(busy, Live(busy)) && Aligned(g, Live(busy))
  {
    BusyOnGridApart(g, busy);
    ScanIsLive(recs, busy);
    AlignedLive(g, busy);
    forall o | o in busy ensures Units(o, busy[o]) <= Live(busy) { LiveOf(busy, o); }
  }

  lemma BusyOnGridApart(g: Grid, m: map<nat, nat>)
    requires forall o :: o in m ==> Cell(g, o, m[o])
    ensures Apart(m)
  {
    forall a, b | a in m && b in m && a != b ensures Units(a, m[a]) !! Units(b, m[b]) {
      CellsApart(g, a, b);
    }
  }

  lemma AlignedLive(g: Grid, m: map<nat, nat>)
    requires forall o :: o in m ==> Cell(g, o, m[o])
    ensures Aligned(g, Live(m))
  {
    forall o | o in g ensures Units(o, g[o]) <= Live(m) || Units(o, g[o]) !! Live(m) {
      if o in m {
        LiveOf(m, o);
      } else {
        forall u | u in Live(m) ensures u !in Units(o, g[o]) {
          var a :| a in m && u in Units(a, m[a]);
          CellsApart(g, a, o);
        }
      }
    }
  }

  lemma StepKeeps(g: Grid, z: Zone, e: Event)
    requires Inv(g, z) && Enabled(z, e) && OnGrid(g, z, e)
    ensures Inv(g, Apply(z, e))
  {
    match e
    case Claim(_, _) => ClaimKeeps(g, z, e);
    case PersistBusy(o) => PutKeeps(g, z, o, z.pending[o]);
    case Commit(o, n) =>
      PutKeeps(g, z, o, n);
      assert z.pending - {o} == z.pending;
    case PersistFails(_) => PersistFailsKeeps(g, z, e);
    case MergeFree => MergeKeeps(g, z, e);
    case BatchApplied => BatchKeeps(g, z, e);
    case BatchFails => BatchKeeps(g, z, e);
    case RestartReplay => RestartReplayKeeps(g, z, e);
    case RestartFullScan(_, _) => RestartFullScanKeeps(g, z, e);
    case RestartEmpty =>
    case OtherWrite => OtherWriteKeeps(g, z, e);
    case FreeBlock(_, _, _) => FreeKeeps(g, z, e);
    case _ => CompactionKeeps(g, z, e);
  }

  lemma {:induction false} RunKeepsInv(g: Grid, z: Zone, es: seq<Event>)
    requires Inv(g, z) && Legal(z, es, (y, e) => OnGrid(g, y, e))
    ensures Inv(g, Run(z, es, (y, e) => OnGrid(g, y, e)))
    decreases |es|
  {
    if es != [] {
      StepKeeps(g, z, es[0]);
      RunKeepsInv(g, Apply(z, es[0]), es[1..]);
    }
  }

  lemma InvIsSafe(g: Grid, z: Zone)
    requires Inv(g, z)
    ensures Safe(z)
  {
    BusyOnGridApart(g, z.d.busy);
  }

  lemma FreshInv(g: Grid)
    ensures Inv(g, FreshZone)
  {
    assert Replay({}, []) == {};
  }

  /** No such run loses a live block. */
  lemma GridRunsAreSafe(g: Grid, es: seq<Event>)
    requires Legal(FreshZone, es, (y, e) => OnGrid(g, y, e))
    ensures Safe(Run(FreshZone, es, (y, e) => OnGrid(g, y, e)))
  {
    FreshInv(g);
    RunKeepsInv(g, FreshZone, es);
    InvIsSafe(g, Run(FreshZone, es, (y, e) => OnGrid(g, y, e)));
  }

  // ---- Exactly when ---------------------------------------------------

  ghost predicate Anything(z: Zone, e: Event) {
    true
  }

  /** Only what is under way goes on: claims are persisted or fail, a scan is merged. */
  ghost predicate Settles(es: seq<Event>) {
    forall i :: 0 <= i < |es| ==> es[i].PersistBusy? || es[i].PersistFails? || es[i].MergeFree?
  }

  /** No live block is lost, nor will be, however what is under way goes on. */
  ghost predicate Secure(z: Zone) {
    forall es :: Legal(z, es, Anything) && Settles(es) ==> Safe(Run(z, es, Anything))
  }

  lemma {:induction false} SettlingIsSafe(g: Grid, z: Zone, es: seq<Event>)
    requires Inv(g, z) && Legal(z, es, Anything) && Settles(es)
    ensures Safe(Run(z, es, Anything))
    decreases |es|
  {
    if es == [] {
      InvIsSafe(g, z);
    } else {
      StepKeeps(g, z, es[0]);
      SettlingIsSafe(g, Apply(z, es[0]), es[1..]);
    }
  }

  lemma InvIsSecure(g: Grid, z: Zone)
    requires Inv(g, z)
    ensures Secure(z)
  {
    forall es | Legal(z, es, Anything) && Settles(es) ensures Safe(Run(z, es, Anything)) { SettlingIsSafe(g, z, es); }
  }

  lemma NotSecure(z: Zone, es: seq<Event>)
    requires Legal(z, es, Anything) && Settles(es) && !Safe(Run(z, es, Anything))
    ensures !Secure(z)
  {
  }

  lemma One(z: Zone, a: Event)
    requires Enabled(z, a)
    ensures Legal(z, [a], Anything) && Run(z, [a], Anything) == Apply(z, a)
  {
    assert [a][1..] == [];
    assert Legal(Apply(z, a), [], Anything);
  }

  lemma Two(z: Zone, a: Event, b: Event)
    requires Enabled(z, a) && Enabled(Apply(z, a), b)
    ensures Legal(z, [a, b], Anything) && Run(z, [a, b], Anything) == Apply(Apply(z, a), b)
  {
    One(Apply(z, a), b);
    assert [a, b][1..] == [b];
  }

  /** A merge clears every cell that is listed as newly freed. */
  lemma {:induction false} MergeClears(g: Grid, b: set<nat>, recs: seq<FreeRecord>, w: nat, i: nat)
    requires Aligned(g, b) && i < |recs| && recs[i].ts > w
    requires forall j :: 0 <= j < |recs| ==> Cell(g, recs[j].off, recs[j].len)
    ensures Units(recs[i].off, recs[i].len) !! MergeBits(b, recs, w)
  {
    var k := |recs| - 1;
    MergeClearsOnly(g, b, recs[..k], w);
    if i < k {
      MergeClears(g, b, recs[..k], w, i);
      assert recs[..k][i] == recs[i];
    }
  }

  /** A live cell that is going to be cleared is lost with the merge. */
  lemma ClearedIsLost(g: Grid, z: Zone, o: nat)
    requires z.phase.Scanned? && ToBeCleared(z, o) && o in z.d.busy && Cell(g, o, z.d.busy[o]) && Aligned(g, z.bits)
    requires forall j :: 0 <= j < |z.phase.recs| ==> Cell(g, z.phase.recs[j].off, z.phase.recs[j].len)
    ensures !Safe(Apply(z, MergeFree))
  {
    var i :| 0 <= i < |z.phase.recs| && z.phase.recs[i].off == o && z.phase.recs[i].ts > z.compactTs;
    MergeClears(g, z.bits, z.phase.recs, z.compactTs, i);
    Missing(Apply(z, MergeFree), o);
  }

  lemma Missing(z: Zone, o: nat)
    requires o in z.d.busy && o !in z.bits && z.d.busy[o] > 0
    ensures !Safe(z)
  {
    LiveOf(z.d.busy, o);
    assert o in Units(o, z.d.busy[o]);
  }

  /** A claimed cell that is going to be cleared is lost when its persist comes first. */
  lemma ClaimedIsLost(g: Grid, z: Zone, o: nat)
    requires z.phase.Scanned? && ToBeCleared(z, o) && o in z.pending && Cell(g, o, z.pending[o]) && Aligned(g, z.bits)
    requires forall j :: 0 <= j < |z.phase.recs| ==> Cell(g, z.phase.recs[j].off, z.phase.recs[j].len)
    ensures !Secure(z)
  {
    var z1 := Apply(z, PersistBusy(o));
    ClearedIsLost(g, z1, o);
    Two(z, PersistBusy(o), MergeFree);
    NotSecure(z, [PersistBusy(o), MergeFree]);
  }

  lemma RacedClaim(g: Grid, z: Zone, o: nat, n: nat)
    requires Inv(g, z) && Enabled(z, Claim(o, n)) && Cell(g, o, n) && ToBeCleared(z, o)
    ensures !Secure(Apply(z, Claim(o, n)))
  {
    AlignedSet(g, z.bits, o);
    assert o in Units(o, n);
    ClaimedIsLost(g, Apply(z, Claim(o, n)), o);
  }

  lemma RacedScan(g: Grid, z: Zone, recs: seq<FreeRecord>, o: nat)
    requires Inv(g, z) && Enabled(z, ScanFree(recs)) && o in z.pending && FreshFree(z, o)
    ensures !Secure(Apply(z, ScanFree(recs)))
  {
    ListsAllKeys(recs, z.d.free);
    var i :| 0 <= i < |recs| && recs[i].off == o;
    forall j | 0 <= j < |recs|
      ensures recs[j].off in z.d.free && z.d.free[recs[j].off] == FreeValue(recs[j].len, recs[j].ts)
    {
      ListedOnDisk(recs, z.d.free, j);
    }
    ClaimedIsLost(g, Apply(z, ScanFree(recs)), o);
  }

  lemma RacedCommit(g: Grid, z: Zone, o: nat, n: nat)
    requires Inv(g, z) && Cell(g, o, n) && !Unraced(z, Commit(o, n))
    ensures !Secure(Apply(z, Commit(o, n)))
  {
    var z' := Apply(z, Commit(o, n));
    assert o in Units(o, n);
    if !(Units(o, n) <= z.bits) {
      Missing(z', o);
      NotSecure(z', []);
    } else if o in z.pending {
      One(z', PersistFails(o));
      Missing(Apply(z', PersistFails(o)), o);
      NotSecure(z', [PersistFails(o)]);
    } else {
      ClearedIsLost(g, z', o);
      One(z', MergeFree);
      NotSecure(z', [MergeFree]);
    }
  }

  lemma LostNow(z: Zone)
    requires !Safe(z)
    ensures !Secure(z)
  {
    NotSecure(z, []);
  }

  lemma RacedLoses(g: Grid, z: Zone, e: Event)
    requires Inv(g, z) && Enabled(z, e) && OnCells(g, e) && !Unraced(z, e)
    ensures !Secure(Apply(z, e))
  {
    match e
    case Claim(o, n) => RacedClaim(g, z, o, n);
    case ScanFree(recs) =>
      var o :| o in z.pending && FreshFree(z, o);
      RacedScan(g, z, recs, o);
    case Commit(o, n) => RacedCommit(g, z, o, n);
    case PersistLost(o) =>
      assert o in Units(o, z.pending[o]);
      Missing(Apply(z, e), o);
      LostNow(Apply(z, e));
    case RestartEmpty =>
      var o :| o in z.d.busy;
      Missing(Apply(z, e), o);
      LostNow(Apply(z, e));
  }

  lemma StepSecureIff(g: Grid, z: Zone, e: Event)
    requires Inv(g, z) && Enabled(z, e) && OnCells(g, e)
    ensures Secure(Apply(z, e)) <==> Unraced(z, e)
  {
    if Unraced(z, e) {
      StepKeeps(g, z, e);
      InvIsSecure(g, Apply(z, e));
    } else {
      RacedLoses(g, z, e);
    }
  }

  ghost predicate SecureThroughout(g: Grid, z: Zone, es: seq<Event>)
    requires Legal(z, es, (y, e) => OnCells(g, e))
    decreases |es|
  {
    Secure(z) && (es == [] || SecureThroughout(g, Apply(z, es[0]), es[1..]))
  }

  ghost predicate AllUnraced(g: Grid, z: Zone, es: seq<Event>)
    requires Legal(z, es, (y, e) => OnCells(g, e))
    decreases |es|
  {
    es == [] || (Unraced(z, es[0]) && AllUnraced(g, Apply(z, es[0]), es[1..]))
  }

  lemma {:induction false} SecureIffUnraced(g: Grid, z: Zone, es: seq<Event>)
    requires Inv(g, z) && Legal(z, es, (y, e) => OnCells(g, e))
    ensures SecureThroughout(g, z, es) <==> AllUnraced(g, z, es)
    decreases |es|
  {
    InvIsSecure(g, z);
    if es != [] {
      StepSecureIff(g, z, es[0]);
      if Unraced(z, es[0]) {
        StepKeeps(g, z, es[0]);
        SecureIffUnraced(g, Apply(z, es[0]), es[1..]);
      }
    }
  }

  /** In every run on cells, with races, failed batches, late and repeated frees, late
      commits, lost answers and restarts of every kind: live blocks are secure
      throughout exactly when every step was unraced. */
  lemma GridSecureIff(g: Grid, es: seq<Event>)
    requires Legal(FreshZone, es, (y, e) => OnCells(g, e))
    ensures SecureThroughout(g, FreshZone, es) <==> AllUnraced(g, FreshZone, es)
  {
    FreshInv(g);
    SecureIffUnraced(g, FreshZone, es);
  }
}
