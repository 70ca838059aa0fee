/** The premises of `ZoneDiscipline`, `ZoneReady`, `ZoneExact` and `ZoneGrid` are needed:
short runs of the code, from a fresh zone, in which dropping one of them loses a live
block, or leaves a unit set with no record. */
module ZoneHazards {
  import opened Bitmap
  import opened ZoneProtocol
  import ZoneDiscipline
  import ZoneReady

  const Unrestricted: (Zone, Event) -> bool := (_, _) => true

  /** The discipline, but for what it asks of frees, commits and persists. */
  ghost predicate Careless(z: Zone, e: Event) {
    e.FreeBlock? || e.Commit? || e.PersistLost? || ZoneDiscipline.Disciplined(z, e)
  }

  /** All that `ZoneReady` asks, but for full scans and empty restarts. */
  ghost predicate Forgetful(z: Zone, e: Event) {
    e.RestartFullScan? || e.RestartEmpty? || ZoneReady.Checked(z, e)
  }

  /** All but for anchors. */
  ghost predicate Adrift(z: Zone, e: Event) {
    e.Anchor? || ZoneReady.Checked(z, e)
  }

  /** All but for roll-backs. */
  ghost predicate Hasty(z: Zone, e: Event) {
    e.PersistFails? || ZoneReady.Checked(z, e)
  }

  /** A premise that asks no more than `ZoneReady`. */
  ghost predicate Lenient(ok: (Zone, Event) -> bool) {
    forall z, e :: ZoneReady.Checked(z, e) ==> ok(z, e)
  }

  /** A premise that asks no more than the discipline. */
  ghost predicate Lax(ok: (Zone, Event) -> bool) {
    forall z, e :: ZoneDiscipline.Disciplined(z, e) ==> ok(z, e)
  }

  /** A live block lost: some unit of it can be claimed again. */
  ghost predicate CanReuse(z: Zone, o: nat, n: nat) {
    Enabled(z, Claim(o, n)) && Units(o, n) * Live(z.d.busy) != {}
  }

  /** The written record of a block is replayed in full exactly when its extent
      is not partly set already. */
  lemma PutSurvivesRestartIff(d: Durable, o: nat, n: nat)
    requires d.zone.slot <= |d.journal|
    ensures Units(o, n) <= Load(Write(d, PutBusy(o, n)))
            <==> Units(o, n) !! Load(d) || Units(o, n) <= Load(d)
  {
    ReplayWrite(d.zone, d.journal, PutBusy(o, n));
  }

  // ---- Building runs --------------------------------------------------

  lemma {:induction false} Then(z: Zone, es: seq<Event>, e: Event, ok: (Zone, Event) -> bool) returns (es': seq<Event>)
    requires Legal(z, es, ok) && Enabled(Run(z, es, ok), e) && ok(Run(z, es, ok), e)
    ensures es' == es + [e]
    ensures Legal(z, es', ok) && Run(z, es', ok) == Apply(Run(z, es, ok), e)
    decreases |es|
  {
    es' := es + [e];
    if es == [] {
      assert [e][1..] == [];
    } else {
      var rest := Then(Apply(z, es[0]), es[1..], e, ok);
      assert es'[1..] == rest;
    }
  }

  /** Nothing is claimed, live, freed or set. */
  ghost predicate Bare(z: Zone) {
    && z.bits == {} && z.pending == map[] && z.d.busy == map[] && z.phase.Idle?
    && z.d.zone.slot <= |z.d.journal|
  }

  /** A block is claimed and written in a bare zone. */
  lemma WriteBlock(es0: seq<Event>, o: nat, n: nat, ok: (Zone, Event) -> bool) returns (es: seq<Event>)
    requires n > 0 && Legal(FreshZone, es0, ok) && Bare(Run(FreshZone, es0, ok))
    requires ok(Run(FreshZone, es0, ok), Claim(o, n)) && Lax(ok)
    ensures Legal(FreshZone, es, ok)
    ensures var z, z' := Run(FreshZone, es0, ok), Run(FreshZone, es, ok);
      && z'.d == BusyWritten(z.d, o, n) && z'.d.busy == map[o := n] && z'.bits == Units(o, n) && z'.pending == map[]
      && z'.compactTs == z.compactTs && z'.phase.Idle?
  {
    es := Then(FreshZone, es0, Claim(o, n), ok);
    es := Then(FreshZone, es, PersistBusy(o), ok);
    assert {} + Units(o, n) == Units(o, n);
  }

  /** In a zone where memory and journal are empty, a claim meets the discipline. */
  lemma BareIsClean(z: Zone, o: nat, n: nat)
    requires Bare(z) && z.d.free == map[] && Load(z.d) == {} && n > 0
    ensures ZoneDiscipline.Disciplined(z, Claim(o, n))
  {
    ZoneDiscipline.CleanFits(z, o, n);
  }

  lemma AllocFree(o: nat, n: nat, ok: (Zone, Event) -> bool) returns (es: seq<Event>)
    requires n > 0 && Lax(ok)
    ensures Legal(FreshZone, es, ok)
    ensures Run(FreshZone, es, ok) ==
      Zone(Durable(map[], map[o := FreeValue(n, 1)], FreshSnapshot, [PutBusy(o, n), DeleteBusy(o)]),
           Units(o, n), 0, map[], Idle)
  {
    assert Replay({}, []) == {};
    BareIsClean(FreshZone, o, n);
    es := WriteBlock([], o, n, ok);
    es := Then(FreshZone, es, FreeBlock(o, n, 1), ok);
    var z := Run(FreshZone, es, ok);
    assert z.d.busy == map[] && z.d.free == map[o := FreeValue(n, 1)];
    assert z.d.journal == [PutBusy(o, n), DeleteBusy(o)];
  }

  /** A scan of the only free record. */
  lemma Scan(es0: seq<Event>, o: nat, v: FreeValue, ok: (Zone, Event) -> bool) returns (es: seq<Event>)
    requires Legal(FreshZone, es0, ok)
    requires var z := Run(FreshZone, es0, ok);
      z.d.free == map[o := v] && z.phase.Idle? && ok(z, ScanFree([FreeRecord(o, v.len, v.ts)]))
    ensures Legal(FreshZone, es, ok)
    ensures var z := Run(FreshZone, es0, ok);
      Run(FreshZone, es, ok) == z.(phase := Scanned([FreeRecord(o, v.len, v.ts)]))
  {
    var recs := [FreeRecord(o, v.len, v.ts)];
    var z := Run(FreshZone, es0, ok);
    assert Lists(recs, z.d.free) by { assert z.d.free - {o} == map[] && recs[..0] == []; }
    es := Then(FreshZone, es0, ScanFree(recs), ok);
  }

  /** What the merge of one record does. */
  lemma MergeOne(b: set<nat>, r: FreeRecord, w: nat)
    ensures MergeBits(b, [r], w) == if r.ts <= w then b else ClearRange(b, r.off, r.len)
    ensures MergeTs([r], w) == if r.ts > w then r.ts else w
    ensures Keys([r]) == {r.off}
  {
    assert [r][..0] == [] && [r][0].off in Keys([r]);
    assert MergeBits(b, [], w) == b && MergeTs([], w) == w;
  }

  /** A scan and a merge of the only free record. */
  lemma Merge(es0: seq<Event>, o: nat, v: FreeValue, ok: (Zone, Event) -> bool) returns (es: seq<Event>)
    requires Legal(FreshZone, es0, ok) && Lax(ok)
    requires var z := Run(FreshZone, es0, ok);
      z.d.free == map[o := v] && z.pending == map[] && z.phase.Idle?
    ensures Legal(FreshZone, es, ok)
    ensures var z := Run(FreshZone, es0, ok);
      Run(FreshZone, es, ok) ==
        if v.ts <= z.compactTs then z.(phase := Merged({o}))
        else z.(bits := ClearRange(z.bits, o, v.len), compactTs := v.ts, phase := Merged({o}))
  {
    var z := Run(FreshZone, es0, ok);
    es := Scan(es0, o, v, ok);
    MergeOne(z.bits, FreeRecord(o, v.len, v.ts), z.compactTs);
    es := Then(FreshZone, es, MergeFree, ok);
  }

  /** Anchor, snapshot and batch after a merge. */
  lemma Finish(es0: seq<Event>, applied: bool, ok: (Zone, Event) -> bool) returns (es: seq<Event>)
    requires Legal(FreshZone, es0, ok) && Lax(ok) && Run(FreshZone, es0, ok).phase.Merged?
    ensures Legal(FreshZone, es, ok)
    ensures var z, z' := Run(FreshZone, es0, ok), Run(FreshZone, es, ok);
      && z'.bits == z.bits && z'.pending == z.pending && z'.compactTs == z.compactTs && z'.phase.Idle?
      && z'.d == if !applied then z.d
                 else Write(z.d, Other).(zone := Snapshot(z.bits, |z.d.journal|, z.compactTs),
                                         free := z.d.free - z.phase.keys)
  {
    var z := Run(FreshZone, es0, ok);
    es := Then(FreshZone, es0, Anchor(|z.d.journal|), ok);
    es := Then(FreshZone, es, BuildSnapshot, ok);
    es := Then(FreshZone, es, if applied then BatchApplied else BatchFails, ok);
  }

  /** A block is written, freed and compacted away. */
  lemma AllocFreeCompact(o: nat, n: nat, ok: (Zone, Event) -> bool) returns (es: seq<Event>)
    requires n > 0 && Lax(ok)
    ensures Legal(FreshZone, es, ok)
    ensures var z := Run(FreshZone, es, ok);
      Bare(z) && z.d.free == map[] && z.compactTs == 1 && Load(z.d) == {}
  {
    es := AllocFree(o, n, ok);
    var j := Run(FreshZone, es, ok).d.journal;
    es := Merge(es, o, FreeValue(n, 1), ok);
    assert ClearRange(Units(o, n), o, n) == {};
    es := Finish(es, true, ok);
    var z := Run(FreshZone, es, ok);
    assert z.d.free == map[];
    assert z.d.journal[z.d.zone.slot..] == [Other] && [Other][..0] == [];
    assert Replay({}, []) == {};
  }

  // ---- A failed batch, a full scan ------------------------------------

  /** Mixed block sizes, and a zone used on after its compaction batch failed:
      block 2..3 is freed and merged, the batch fails, block 0..3 is written,
      and a restart replays the old put first and so drops the new one. */
  lemma ReuseAfterFailedBatch() returns (es: seq<Event>)
    ensures Legal(FreshZone, es, Unrestricted)
    ensures !Safe(Run(FreshZone, es, Unrestricted)) && CanReuse(Run(FreshZone, es, Unrestricted), 0, 2)
  {
    es := AllocFree(2, 2, Unrestricted);
    es := Merge(es, 2, FreeValue(2, 1), Unrestricted);
    assert ClearRange(Units(2, 2), 2, 2) == {};
    es := Finish(es, false, Unrestricted);
    es := WriteBlock(es, 0, 4, Unrestricted);
    var z := Run(FreshZone, es, Unrestricted);
    OldPutHidesNew(z.d);
    es := Then(FreshZone, es, RestartReplay, Unrestricted);
    LiveOf(z.d.busy, 0);
    assert 0 in Units(0, 4) && 0 in Units(0, 2);
  }

  /** The put of 0..3 after one of 2..3 is dropped by a replay. */
  lemma OldPutHidesNew(d: Durable)
    requires d.zone == FreshSnapshot && d.journal == [PutBusy(2, 2), DeleteBusy(2)] + [PutBusy(0, 4)]
    ensures Load(d) == {2, 3}
  {
    var j := [PutBusy(2, 2), DeleteBusy(2)];
    assert Replay({}, []) == {};
    ReplayWrite(FreshSnapshot, [], PutBusy(2, 2));
    assert [] + [PutBusy(2, 2)] == [PutBusy(2, 2)];
    ReplayWrite(FreshSnapshot, [PutBusy(2, 2)], DeleteBusy(2));
    assert [PutBusy(2, 2)] + [DeleteBusy(2)] == j;
    ReplayWrite(FreshSnapshot, j, PutBusy(0, 4));
    assert 2 in Units(0, 4);
  }

  /** One-unit blocks, but a full scan with a free record left on disk and a
      claim between the compaction's scan and its merge. */
  lemma FullScanThenRace() returns (es: seq<Event>)
    ensures Legal(FreshZone, es, Unrestricted)
    ensures !Safe(Run(FreshZone, es, Unrestricted)) && CanReuse(Run(FreshZone, es, Unrestricted), 0, 1)
  {
    es := AllocFree(0, 1, Unrestricted);
    es := Then(FreshZone, es, RestartFullScan([], false), Unrestricted);
    es := Scan(es, 0, FreeValue(1, 1), Unrestricted);
    es := Then(FreshZone, es, Claim(0, 1), Unrestricted);
    es := Then(FreshZone, es, PersistBusy(0), Unrestricted);
    var z := Run(FreshZone, es, Unrestricted);
    assert z.bits == {} + Units(0, 1) && z.d.busy == map[0 := 1];
    MergeOne(z.bits, FreeRecord(0, 1, 1), 0);
    es := Then(FreshZone, es, MergeFree, Unrestricted);
    LiveOf(z.d.busy, 0);
    assert 0 in Units(0, 1);
  }

  // ---- With every claim in a ready zone -------------------------------

  /** A block is claimed and written in a ready zone. */
  lemma ReadyBlock(es0: seq<Event>, o: nat, n: nat, ok: (Zone, Event) -> bool) returns (es: seq<Event>)
    requires n > 0 && Lenient(ok) && Legal(FreshZone, es0, ok)
    requires ZoneReady.Ready(Run(FreshZone, es0, ok)) && Enabled(Run(FreshZone, es0, ok), Claim(o, n))
    requires o !in Run(FreshZone, es0, ok).pending
    ensures Legal(FreshZone, es, ok)
    ensures var z, z' := Run(FreshZone, es0, ok), Run(FreshZone, es, ok);
      z' == z.(d := BusyWritten(z.d, o, n), bits := z.bits + Units(o, n))
  {
    es := Then(FreshZone, es0, Claim(o, n), ok);
    es := Then(FreshZone, es, PersistBusy(o), ok);
    assert Run(FreshZone, es0, ok).pending[o := n] - {o} == Run(FreshZone, es0, ok).pending;
  }

  /** A block is written and freed in a fresh zone. */
  lemma ReadyAllocFree(o: nat, n: nat, ok: (Zone, Event) -> bool) returns (es: seq<Event>)
    requires n > 0 && Lenient(ok)
    ensures Legal(FreshZone, es, ok)
    ensures Run(FreshZone, es, ok) ==
      Zone(Durable(map[], map[o := FreeValue(n, 1)], FreshSnapshot, [PutBusy(o, n), DeleteBusy(o)]),
           Units(o, n), 0, map[], Idle)
  {
    es := ReadyBlock([], o, n, ok);
    es := Then(FreshZone, es, FreeBlock(o, n, 1), ok);
    var z := Run(FreshZone, es, ok);
    assert {} + Units(o, n) == Units(o, n);
    assert z.d.busy == map[] && z.d.journal == [PutBusy(o, n), DeleteBusy(o)];
  }

  /** Scan and merge of the only free record, with claims in flight or not. */
  lemma ScanAndMerge(es0: seq<Event>, o: nat, v: FreeValue, ok: (Zone, Event) -> bool) returns (es: seq<Event>)
    requires Legal(FreshZone, es0, ok) && Lenient(ok)
    requires var z := Run(FreshZone, es0, ok); z.d.free == map[o := v] && z.phase.Idle? && v.ts > z.compactTs
    ensures Legal(FreshZone, es, ok)
    ensures var z := Run(FreshZone, es0, ok);
      Run(FreshZone, es, ok) == z.(bits := ClearRange(z.bits, o, v.len), compactTs := v.ts, phase := Merged({o}))
  {
    var z := Run(FreshZone, es0, ok);
    es := Scan(es0, o, v, ok);
    MergeOne(z.bits, FreeRecord(o, v.len, v.ts), z.compactTs);
    es := Then(FreshZone, es, MergeFree, ok);
  }

  /** A whole compaction. */
  lemma Compact(es0: seq<Event>, o: nat, v: FreeValue, slot: nat, ok: (Zone, Event) -> bool) returns (es: seq<Event>)
    requires Legal(FreshZone, es0, ok) && Lenient(ok)
    requires var z := Run(FreshZone, es0, ok);
      && z.d.free == map[o := v] && z.phase.Idle? && v.ts > z.compactTs
      && (slot == |z.d.journal| || (slot == 0 && forall y :: ok(y, Anchor(0))))
    ensures Legal(FreshZone, es, ok)
    ensures var z, b := Run(FreshZone, es0, ok), ClearRange(Run(FreshZone, es0, ok).bits, o, v.len);
      Run(FreshZone, es, ok) ==
        z.(d := Write(z.d, Other).(zone := Snapshot(b, slot, v.ts), free := map[]), bits := b, compactTs := v.ts)
  {
    assert Run(FreshZone, es0, ok).d.free - {o} == map[];
    es := ScanAndMerge(es0, o, v, ok);
    es := Then(FreshZone, es, Anchor(slot), ok);
    es := Then(FreshZone, es, BuildSnapshot, ok);
    es := Then(FreshZone, es, BatchApplied, ok);
  }

  /** Block 0..3 is written where a replay would set 2..3, and a restart drops it. */
  lemma WrittenThenDropped(es0: seq<Event>, ok: (Zone, Event) -> bool) returns (es: seq<Event>)
    requires Legal(FreshZone, es0, ok) && Lenient(ok)
    requires var z := Run(FreshZone, es0, ok);
      && ZoneReady.Ready(z) && z.bits == {} && z.pending == map[] && z.d.busy == map[]
      && z.d.zone.slot <= |z.d.journal| && Load(z.d) == {2, 3}
    ensures Legal(FreshZone, es, ok)
    ensures !Safe(Run(FreshZone, es, ok)) && CanReuse(Run(FreshZone, es, ok), 0, 2)
  {
    var d := Run(FreshZone, es0, ok).d;
    es := ReadyBlock(es0, 0, 4, ok);
    es := Then(FreshZone, es, RestartReplay, ok);
    ReplayWrite(d.zone, d.journal, PutBusy(0, 4));
    var z := Run(FreshZone, es, ok);
    assert 2 in Units(0, 4) && 0 in Units(0, 4) && 0 in Units(0, 2);
    assert z.bits == {2, 3} && z.d.busy == map[0 := 4];
    LiveOf(z.d.busy, 0);
    assert 0 in Units(0, 2) * Live(z.d.busy);
  }

  /** A lost anchor: block 2..3 is written, freed and compacted away with a snapshot at
      slot 0, whose replay sets it again.  Nothing races and nothing fails but the read
      of the slot, and the zone is ready when block 0..3 is written. */
  lemma LostAnchor() returns (es: seq<Event>)
    ensures Legal(FreshZone, es, Adrift)
    ensures !Safe(Run(FreshZone, es, Adrift)) && CanReuse(Run(FreshZone, es, Adrift), 0, 2)
  {
    es := ReadyAllocFree(2, 2, Adrift);
    es := Compact(es, 2, FreeValue(2, 1), 0, Adrift);
    var z := Run(FreshZone, es, Adrift);
    assert z.bits == {};
    ReplaysOldPut(z.d);
    es := WrittenThenDropped(es, Adrift);
  }

  lemma ReplaysOldPut(d: Durable)
    requires d.zone.bits == {} && d.zone.slot == 0 && d.journal == [PutBusy(2, 2), DeleteBusy(2)] + [Other]
    ensures Load(d) == {2, 3}
  {
    var j := [PutBusy(2, 2), DeleteBusy(2)];
    assert Replay({}, []) == {};
    ReplayWrite(d.zone, [], PutBusy(2, 2));
    assert [] + [PutBusy(2, 2)] == [PutBusy(2, 2)];
    ReplayWrite(d.zone, [PutBusy(2, 2)], DeleteBusy(2));
    assert [PutBusy(2, 2)] + [DeleteBusy(2)] == j;
    ReplayWrite(d.zone, j, Other);
    assert Units(2, 2) == {2, 3};
  }

  /** A claim of 2..3 is in flight while block 8 is compacted away, so the snapshot holds
      it. */
  lemma ClaimCompacted(ok: (Zone, Event) -> bool) returns (es: seq<Event>)
    requires Lenient(ok)
    ensures Legal(FreshZone, es, ok)
    ensures var z := Run(FreshZone, es, ok);
      && z.d.busy == map[] && z.d.free == map[] && z.pending == map[2 := 2] && z.phase.Idle?
      && z.d.zone.slot <= |z.d.journal| && z.bits == Load(z.d) == {2, 3}
  {
    es := ReadyAllocFree(8, 1, ok);
    es := Then(FreshZone, es, Claim(2, 2), ok);
    var z0 := Run(FreshZone, es, ok);
    es := Compact(es, 8, FreeValue(1, 1), |z0.d.journal|, ok);
    assert ClearRange(z0.bits, 8, 1) == {2, 3} by { assert Units(2, 2) == {2, 3} && Units(8, 1) == {8}; }
    AnchoredAtEnd(Run(FreshZone, es, ok).d, z0.d.journal);
  }

  lemma AnchoredAtEnd(d: Durable, journal: seq<JournalOp>)
    requires d.journal == journal + [Other] && d.zone.slot == |journal|
    ensures Load(d) == d.zone.bits
  {
    assert d.journal[d.zone.slot..] == [Other] && [Other][..0] == [];
    assert Replay(d.zone.bits, []) == d.zone.bits;
  }

  /** A claim in flight: its persist fails after the snapshot has been written with it.
      The anchor is right, and the zone is ready when block 0..3 is written. */
  lemma ClaimInFlight() returns (es: seq<Event>)
    ensures Legal(FreshZone, es, Hasty)
    ensures !Safe(Run(FreshZone, es, Hasty)) && CanReuse(Run(FreshZone, es, Hasty), 0, 2)
  {
    es := ClaimCompacted(Hasty);
    es := Then(FreshZone, es, PersistFails(2), Hasty);
    var z := Run(FreshZone, es, Hasty);
    assert Units(2, 2) == {2, 3} && z.bits == {} && z.pending == map[];
    es := WrittenThenDropped(es, Hasty);
  }

  /** A restart before the persist: with every check made, the units stay set with no
      record. */
  lemma ClaimForgotten() returns (es: seq<Event>)
    ensures Legal(FreshZone, es, ZoneReady.Checked)
    ensures var z := Run(FreshZone, es, ZoneReady.Checked);
      && z.d.busy == map[] && z.d.free == map[] && z.pending == map[]
      && z.d.zone.slot <= |z.d.journal| && z.bits == Load(z.d) == {2, 3}
  {
    es := ClaimCompacted(ZoneReady.Checked);
    es := Then(FreshZone, es, RestartReplay, ZoneReady.Checked);
  }

  lemma ForgottenThenWritten() returns (es: seq<Event>)
    ensures Legal(FreshZone, es, Forgetful)
    ensures var z := Run(FreshZone, es, Forgetful);
      && z.d.busy == map[0 := 4] && z.d.free == map[2 := FreeValue(2, 1)] && z.bits == Units(0, 4)
      && z.pending == map[] && z.compactTs == 0 && z.phase.Idle?
  {
    es := ReadyAllocFree(2, 2, Forgetful);
    es := Then(FreshZone, es, RestartFullScan([], false), Forgetful);
    es := ReadyBlock(es, 0, 4, Forgetful);
    assert {} + Units(0, 4) == Units(0, 4);
  }

  /** Nothing races, and every claim finds the zone ready: a full scan forgets the free
      record of 2..3, block 0..3 is written over it, and the next merge clears half
      of the live block. */
  lemma FullScanThenClaim() returns (es: seq<Event>)
    ensures Legal(FreshZone, es, Forgetful)
    ensures !Safe(Run(FreshZone, es, Forgetful)) && CanReuse(Run(FreshZone, es, Forgetful), 2, 2)
  {
    es := ForgottenThenWritten();
    es := Scan(es, 2, FreeValue(2, 1), Forgetful);
    MergeOne(Units(0, 4), FreeRecord(2, 2, 1), 0);
    es := Then(FreshZone, es, MergeFree, Forgetful);
    HalfCleared(Run(FreshZone, es, Forgetful));
  }

  /** Neither strategy works and the zone comes up empty: a live block can be claimed. */
  lemma EmptyRestartLoses() returns (es: seq<Event>)
    ensures Legal(FreshZone, es, Forgetful)
    ensures !Safe(Run(FreshZone, es, Forgetful)) && CanReuse(Run(FreshZone, es, Forgetful), 0, 4)
  {
    es := ReadyBlock([], 0, 4, Forgetful);
    es := Then(FreshZone, es, RestartEmpty, Forgetful);
    var z := Run(FreshZone, es, Forgetful);
    assert z.d.busy == map[0 := 4] && z.bits == {};
    LiveOf(z.d.busy, 0);
    assert 0 in Units(0, 4);
  }

  // ---- Unguarded frees, commits and roll-backs ------------------------

  /** Block 2..3 is written, freed and compacted away, then block 0..3 is written. */
  lemma WrittenOver() returns (es: seq<Event>)
    ensures Legal(FreshZone, es, Careless)
    ensures var z := Run(FreshZone, es, Careless);
      && z.d.busy == map[0 := 4] && z.d.free == map[] && z.bits == Units(0, 4)
      && z.pending == map[] && z.phase.Idle? && z.compactTs == 1
  {
    es := AllocFreeCompact(2, 2, Careless);
    BareIsClean(Run(FreshZone, es, Careless), 0, 4);
    es := WriteBlock(es, 0, 4, Careless);
  }

  /** A free that arrives twice: 2..3 is freed again, and the next merge clears half of
      the live block.  Every other step keeps the discipline. */
  lemma FreedTwice() returns (es: seq<Event>)
    ensures Legal(FreshZone, es, Careless)
    ensures !Safe(Run(FreshZone, es, Careless)) && CanReuse(Run(FreshZone, es, Careless), 2, 2)
  {
    es := WrittenOver();
    es := Then(FreshZone, es, FreeBlock(2, 2, 2), Careless);
    var z := Run(FreshZone, es, Careless);
    assert z.d.busy == map[0 := 4] && z.d.free == map[2 := FreeValue(2, 2)];
    es := Merge(es, 2, FreeValue(2, 2), Careless);
    HalfCleared(Run(FreshZone, es, Careless));
  }

  lemma HalfCleared(z: Zone)
    requires z.d.busy == map[0 := 4] && z.bits == ClearRange(Units(0, 4), 2, 2)
    ensures !Safe(z) && CanReuse(z, 2, 2)
  {
    LiveOf(z.d.busy, 0);
    assert Units(2, 2) <= Units(0, 4);
    assert 2 in Units(0, 4) && 2 in Units(2, 2);
    assert 2 in Units(2, 2) * Live(z.d.busy);
  }

  /** A persist that was applied and reported an error: the claim is rolled back and
      the live block can be claimed again. */
  lemma AnswerLost() returns (es: seq<Event>)
    ensures Legal(FreshZone, es, Careless)
    ensures !Safe(Run(FreshZone, es, Careless)) && CanReuse(Run(FreshZone, es, Careless), 0, 4)
  {
    assert Replay({}, []) == {};
    BareIsClean(FreshZone, 0, 4);
    es := Then(FreshZone, [], Claim(0, 4), Careless);
    es := Then(FreshZone, es, PersistLost(0), Careless);
    var z := Run(FreshZone, es, Careless);
    assert z.d.busy == map[0 := 4] && z.bits == {};
    LiveOf(z.d.busy, 0);
    assert 0 in Units(0, 4);
  }

  /** A commit that read block 2..3 before it was freed and compacted away writes it
      back over block 0..3, and the two live blocks share units. */
  lemma CommittedLate() returns (es: seq<Event>)
    ensures Legal(FreshZone, es, Careless)
    ensures var z := Run(FreshZone, es, Careless); !Safe(z) && Recorded(z.d, 0, 4) && Recorded(z.d, 2, 2)
  {
    es := WrittenOver();
    es := Then(FreshZone, es, Commit(2, 2), Careless);
    TwoBlocksShare(Run(FreshZone, es, Careless).d.busy);
  }

  lemma TwoBlocksShare(busy: map<nat, nat>)
    requires busy == map[0 := 4, 2 := 2]
    ensures !Apart(busy)
  {
    assert 2 in Units(0, busy[0]) && 2 in Units(2, busy[2]);
  }

  // ---- Frees and commits while a scan is under way --------------------

  /** Block 0 is written and freed, and a compaction lists its record. */
  lemma Listed() returns (es: seq<Event>)
    ensures Legal(FreshZone, es, Careless)
    ensures var z := Run(FreshZone, es, Careless);
      && z.d.busy == map[] && z.d.free == map[0 := FreeValue(1, 1)] && z.bits == Units(0, 1) && z.pending == map[]
      && z.compactTs == 0 && z.phase == Scanned([FreeRecord(0, 1, 1)])
  {
    es := AllocFree(0, 1, Careless);
    es := Scan(es, 0, FreeValue(1, 1), Careless);
  }

  /** A commit that read the record before it was freed writes it back after the scan,
      and the merge clears the live block. */
  lemma CommittedWhileListed() returns (es: seq<Event>)
    ensures Legal(FreshZone, es, Careless)
    ensures !Safe(Run(FreshZone, es, Careless)) && CanReuse(Run(FreshZone, es, Careless), 0, 1)
  {
    es := Listed();
    es := Then(FreshZone, es, Commit(0, 1), Careless);
    var z := Run(FreshZone, es, Careless);
    assert z.d.busy == map[0 := 1];
    MergeOne(z.bits, FreeRecord(0, 1, 1), 0);
    es := Then(FreshZone, es, MergeFree, Careless);
    LiveOf(z.d.busy, 0);
    assert 0 in Units(0, 1) * Live(z.d.busy);
  }

  /** A free that is repeated after the scan leaves a record, newer than the watermark,
      of a block that the merge has cleared. */
  lemma FreedWhileListed() returns (es: seq<Event>)
    ensures Legal(FreshZone, es, Careless)
    ensures var z := Run(FreshZone, es, Careless);
      z.bits == {} && z.d.free == map[0 := FreeValue(1, 2)] && z.compactTs == 1 && z.phase.Merged?
  {
    es := Listed();
    es := Then(FreshZone, es, FreeBlock(0, 1, 2), Careless);
    MergeOne(Units(0, 1), FreeRecord(0, 1, 1), 0);
    es := Then(FreshZone, es, MergeFree, Careless);
  }

  /** A free stamped at the watermark, as after a restart with the clock set back: the
      next compaction takes the record for merged and deletes it, and the unit stays
      set, in memory and in every replay, with no record. */
  lemma NeverReclaimed() returns (es: seq<Event>)
    ensures Legal(FreshZone, es, ZoneDiscipline.Disciplined)
    ensures var z := Run(FreshZone, es, ZoneDiscipline.Disciplined);
      && z.d.busy == map[] && z.d.free == map[] && z.pending == map[] && z.phase.Idle?
      && z.d.zone.slot <= |z.d.journal| && z.bits == Load(z.d) == {0}
  {
    var ok := ZoneDiscipline.Disciplined;
    es := AllocFreeCompact(0, 1, ok);
    BareIsClean(Run(FreshZone, es, ok), 0, 1);
    es := WriteBlock(es, 0, 1, ok);
    es := Then(FreshZone, es, FreeBlock(0, 1, 1), ok);
    es := Merge(es, 0, FreeValue(1, 1), ok);
    es := Finish(es, true, ok);
    var z := Run(FreshZone, es, ok);
    assert z.bits == Units(0, 1) == {0};
    assert z.d.journal[z.d.zone.slot..] == [Other] && [Other][..0] == [];
    assert Replay(z.bits, []) == z.bits;
  }
}
