/** What a restart rebuilds, exactly.

The journal replay ignores frees, so its bitmap is not the one a scan of the
busy records gives.  In runs where frees are stamped above what is being merged,
snapshots are anchored where no put after them is for a clear extent, no claim that a
snapshot holds is rolled back or lost, and a full scan finds no free record left, the
replayed bitmap is the live units, the units of the free records and the claims that
the snapshot holds, and nothing else.  The two strategies therefore agree exactly
when no free record and no such claim is left. */
module ZoneExact {
  import opened Bitmap
  import opened ZoneProtocol
  import ZoneDiscipline

  /** The free records newer than `w`, as extents. */
  ghost function After(free: map<nat, FreeValue>, w: nat): map<nat, nat> {
    map o | o in free && free[o].ts > w :: free[o].len
  }

  ghost function Extents(free: map<nat, FreeValue>): map<nat, nat> {
    map o | o in free :: free[o].len
  }

  ghost function Restrict(free: map<nat, FreeValue>, keys: set<nat>): map<nat, FreeValue> {
    map o | o in free && o in keys :: free[o]
  }

  /** Above both watermarks, and above the one that the merge of a scan under way will
      set. */
  predicate Late(z: Zone, ts: nat) {
    && ts > z.compactTs && ts > z.d.zone.compactTs
    && (z.phase.Scanned? ==> ts > MergeTs(z.phase.recs, z.compactTs))
  }

  /** There is a free record with this extent that is not merged yet. */
  ghost predicate Waiting(z: Zone, o: nat, n: nat) {
    Retried(z.d, o, n) && z.d.free[o].ts > z.compactTs
  }

  /** There is a busy record with this extent, or a free record with it that is neither
      merged nor listed for a merge. */
  ghost predicate OnBooks(z: Zone, o: nat, n: nat) {
    Recorded(z.d, o, n) || (Waiting(z, o, n) && o !in Doomed(z.phase))
  }

  /** The extents of `m` that start in `b`. */
  ghost function Within(m: map<nat, nat>, b: set<nat>): map<nat, nat> {
    map o | o in m && o in b :: m[o]
  }

  /** The claims that a replay would set, because the snapshot holds them. */
  ghost function Held(z: Zone): map<nat, nat>
    requires z.d.zone.slot <= |z.d.journal|
  {
    Within(z.pending, Load(z.d))
  }

  ghost predicate NoneHeld(z: Zone) {
    z.d.zone.slot <= |z.d.journal| && Held(z) == map[]
  }

  /** No snapshot, written, built or about to be built, holds the claim. */
  ghost predicate Unheld(z: Zone, o: nat)
    requires o in z.pending
  {
    && z.d.zone.slot <= |z.d.journal| && o !in Load(z.d)
    && (z.phase.Anchored? ==>
          && z.phase.slot <= |z.d.journal|
          && Quiet(z.bits - Units(o, z.pending[o]), z.d.journal[z.phase.slot..]))
    && (z.phase.Built? ==>
          z.phase.value.slot <= |z.d.journal| && o !in ReplayFrom(z.phase.value, z.d.journal))
  }

  /** Frees on the books with late stamps, anchors after which nothing clear is put, and
      roll-backs of claims that no snapshot holds. */
  ghost predicate Timely(z: Zone, e: Event) {
    && (e.FreeBlock? ==> Late(z, e.ts) && OnBooks(z, e.off, e.len))
    && (e.Anchor? ==> e.slot <= |z.d.journal| && Quiet(z.bits, z.d.journal[e.slot..]))
    && (e.PersistFails? ==> e.off in z.pending && Unheld(z, e.off))
  }

  /** A full scan, or an empty restart, only when no free record is left. */
  ghost predicate Drained(z: Zone, e: Event) {
    e.RestartFullScan? || e.RestartEmpty? ==> z.d.free == map[]
  }

  /** A restart that goes on with the snapshot finds no claim in it. */
  ghost predicate Intact(z: Zone, e: Event) {
    e.RestartReplay? || e.RestartEmpty? || (e.RestartFullScan? && !e.snapshotWritten) ==> NoneHeld(z)
  }

  ghost predicate Stamped(z: Zone, e: Event) {
    && ZoneDiscipline.Orderly(z, e) && (e.Claim? ==> z.phase.Idle? && ZoneDiscipline.Clean(z))
    && Timely(z, e) && Drained(z, e) && Intact(z, e)
  }

  lemma DisciplineKeeps(z: Zone, e: Event)
    requires Inv(z) && Enabled(z, e) && Stamped(z, e)
    ensures ZoneDiscipline.Inv(Apply(z, e))
  {
    if e.Claim? { ZoneDiscipline.CleanFits(z, e.off, e.len); }
    ZoneDiscipline.StepKeeps(z, e);
  }

  ghost predicate Inv(z: Zone) {
    ZoneDiscipline.Inv(z) && Accounted(z) && NewerThan(z.d.free, z.d.zone.compactTs) && PhaseInv(z)
  }

  /** Memory accounts for exactly the live, claimed and freed units, and replay for the
      live and freed ones and the claims the snapshot holds. */
  ghost predicate Accounted(z: Zone) {
    && z.d.zone.slot <= |z.d.journal|
    && Apart(Extents(z.d.free))
    && z.bits == Live(z.d.busy) + Live(z.pending) + Live(After(z.d.free, z.compactTs))
    && Load(z.d) == Live(z.d.busy) + Live(After(z.d.free, z.d.zone.compactTs)) + Live(Held(z))
  }

  ghost predicate NewerThan(free: map<nat, FreeValue>, w: nat) {
    forall o :: o in free ==> free[o].ts > w
  }

  ghost predicate PhaseInv(z: Zone) {
    match z.phase
    case Idle => true
    case Scanned(recs) =>
      && Lists(recs, Restrict(z.d.free, Keys(recs)))
      && (forall o :: o in z.d.free && o !in Keys(recs) ==> z.d.free[o].ts > MergeTs(recs, z.compactTs))
    case Merged(keys) => LaterOutside(z.d.free, keys, z.compactTs)
    case Anchored(keys, slot) =>
      && LaterOutside(z.d.free, keys, z.compactTs)
      && slot <= |z.d.journal| && Replay(z.bits, z.d.journal[slot..]) == z.bits
    case Built(keys, v) =>
      && LaterOutside(z.d.free, keys, v.compactTs) && v.compactTs == z.compactTs
      && v.slot <= |z.d.journal| && ReplayFrom(v, z.d.journal) == v.bits
      && v.bits == z.bits
  }

  /** The merged records are exactly the ones at or below the watermark. */
  ghost predicate LaterOutside(free: map<nat, FreeValue>, keys: set<nat>, w: nat) {
    keys <= free.Keys && forall o :: o in free ==> (free[o].ts <= w <==> o in keys)
  }

  // ---- Extents of free records ----------------------------------------

  lemma AfterFree(free: map<nat, FreeValue>, w: nat, o: nat, v: FreeValue)
    requires o !in free && v.ts > w
    ensures Live(After(free[o := v], w)) == Live(After(free, w)) + Units(o, v.len)
  {
    LiveInsert(After(free, w), o, v.len);
    assert After(free[o := v], w) == After(free, w)[o := v.len];
  }

  /** Units outside every free record stay outside the newer ones. */
  lemma AfterApart(d: Durable, w: nat, us: set<nat>)
    requires ZoneDiscipline.FreeApart(d, us)
    ensures Live(After(d.free, w)) !! us
  {
    var m := After(d.free, w);
    forall u | u in Live(m) ensures u !in us {
      var a :| a in m && u in Units(a, m[a]);
      assert Units(a, d.free[a].len) !! us;
    }
  }

  lemma FreeKeyNotBusy(z: Zone, o: nat)
    requires Inv(z) && o in z.d.free
    ensures o !in z.d.busy && o !in z.pending
  {
    assert Extents(z.d.free)[o] > 0;
    assert o in Units(o, z.d.free[o].len);
    assert o !in Live(z.d.busy) + Live(z.pending);
    KeyIsLive(z.pending, o);
  }

  lemma KeyIsLive(m: map<nat, nat>, o: nat)
    requires Apart(m)
    ensures o in m ==> o in Live(m)
  {
    if o in m {
      LiveOf(m, o);
      assert o in Units(o, m[o]);
    }
  }

  lemma BusyKeyNotFree(z: Zone, o: nat)
    requires Inv(z) && (o in z.d.busy || o in z.pending)
    ensures o !in z.d.free
  {
    if o in z.d.free { FreeKeyNotBusy(z, o); }
  }

  // ---- Steps outside compaction ---------------------------------------

  lemma ClaimKeeps(z: Zone, e: Event)
    requires Inv(z) && Enabled(z, e) && Stamped(z, e) && e.Claim?
    ensures Inv(Apply(z, e))
  {
    DisciplineKeeps(z, e);
    ClaimExact(z, e);
  }

  lemma ClaimExact(z: Zone, e: Event)
    requires Inv(z) && Enabled(z, e) && e.Claim? && ZoneDiscipline.Clean(z)
    ensures Accounted(Apply(z, e))
  {
    assert e.off in Units(e.off, e.len);
    assert e.off !in z.bits && e.off !in Load(z.d);
    KeyIsLive(z.pending, e.off);
    LiveInsert(z.pending, e.off, e.len);
    WithinClaim(z.pending, e.off, e.len, Load(z.d));
  }

  lemma WithinClaim(m: map<nat, nat>, o: nat, n: nat, b: set<nat>)
    requires o !in m && o !in b
    ensures Within(m[o := n], b) == Within(m, b)
  {
  }

  lemma PersistBusyKeeps(z: Zone, e: Event)
    requires Inv(z) && Enabled(z, e) && Stamped(z, e) && e.PersistBusy?
    ensures Inv(Apply(z, e))
  {
    DisciplineKeeps(z, e);
    PersistExact(z, e.off);
    PersistPhase(z, e.off);
  }

  lemma PersistExact(z: Zone, o: nat)
    requires Inv(z) && o in z.pending
    ensures Accounted(Apply(z, PersistBusy(o))) && Apply(z, PersistBusy(o)).d.free == z.d.free
  {
    var z', us := Apply(z, PersistBusy(o)), Units(o, z.pending[o]);
    BusyKeyNotFree(z, o);
    assert z'.d.free == z.d.free;
    PersistMoves(z, o);
    ZoneDiscipline.PutWhole(z.pending, o, z.d.zone, z.d.journal);
    WithinPut(z.pending, o, Load(z.d));
    Shift(Live(z.d.busy), Live(After(z.d.free, z.d.zone.compactTs)), Live(Held(z)), Live(Held(z')), us);
  }

  lemma PersistMoves(z: Zone, o: nat)
    requires Inv(z) && o in z.pending
    ensures var z', us := Apply(z, PersistBusy(o)), Units(o, z.pending[o]);
      Live(z'.d.busy) == Live(z.d.busy) + us && ZoneDiscipline.Taken(z') == ZoneDiscipline.Taken(z)
  {
    LiveOf(z.pending, o);
    LiveRemove(z.pending, o);
    LiveInsert(z.d.busy, o, z.pending[o]);
  }

  lemma Shift(a: set<nat>, f: set<nat>, h: set<nat>, h': set<nat>, us: set<nat>)
    requires h + us == h' + us
    ensures a + f + h + us == (a + us) + f + h'
  {
    assert a + f + h + us == a + f + (h + us);
  }

  /** A persisted claim leaves the held ones, or is new to the replay. */
  lemma WithinPut(m: map<nat, nat>, o: nat, b: set<nat>)
    requires Apart(m) && o in m
    ensures Live(Within(m, b)) + Units(o, m[o]) == Live(Within(m - {o}, b + Units(o, m[o]))) + Units(o, m[o])
  {
    var us, was, now := Units(o, m[o]), Within(m, b), Within(m - {o}, b + Units(o, m[o]));
    forall p | p in m && p != o ensures p !in us { assert p in Units(p, m[p]); }
    if o in b {
      LivePart(was, m);
      LiveRemove(was, o);
      LiveOf(was, o);
      assert now == was - {o};
    } else {
      assert now == was;
    }
  }

  lemma PersistPhase(z: Zone, o: nat)
    requires Inv(z) && o in z.pending && o !in z.d.free
    ensures PhaseInv(Apply(z, PersistBusy(o)))
  {
    var n := z.pending[o];
    LiveOf(z.pending, o);
    assert z.d.free - {o} == z.d.free;
    assert o in Units(o, n) && Units(o, n) <= z.bits;
    match z.phase
    case Anchored(_, slot) => ReplayWrite(Snapshot(z.bits, slot, 0), z.d.journal, PutBusy(o, n));
    case Built(_, v) => ReplayWrite(v, z.d.journal, PutBusy(o, n));
    case _ =>
  }

  lemma PersistFailsKeeps(z: Zone, e: Event)
    requires Inv(z) && Enabled(z, e) && Stamped(z, e) && e.PersistFails?
    ensures Inv(Apply(z, e))
  {
    DisciplineKeeps(z, e);
    RollBackExact(z, e.off);
    RollBackPhase(z, e.off);
  }

  lemma RollBackExact(z: Zone, o: nat)
    requires Inv(z) && o in z.pending && o !in Load(z.d)
    ensures Accounted(RolledBack(z, o))
  {
    LiveOf(z.pending, o);
    LiveRemove(z.pending, o);
    AfterApart(z.d, z.compactTs, ZoneDiscipline.Taken(z));
    ClearedOfOne(z.bits, Live(z.d.busy), Live(z.pending), Live(After(z.d.free, z.compactTs)), o, z.pending[o]);
    WithinLess(z.pending, Load(z.d), o);
  }

  lemma ClearedOfOne(bits: set<nat>, live: set<nat>, claimed: set<nat>, freed: set<nat>, o: nat, n: nat)
    requires bits == live + claimed + freed && live !! claimed && freed !! live + claimed && Units(o, n) <= claimed
    ensures ClearRange(bits, o, n) == live + (claimed - Units(o, n)) + freed
  {
    var us := Units(o, n);
    assert bits - us == live + (claimed - us) + freed;
  }

  lemma WithinLess(m: map<nat, nat>, b: set<nat>, o: nat)
    requires o !in b
    ensures Within(m - {o}, b) == Within(m, b)
  {}

  lemma RollBackPhase(z: Zone, o: nat)
    requires Inv(z) && o in z.pending && Unheld(z, o)
    ensures PhaseInv(RolledBack(z, o))
  {
    LiveOf(z.pending, o);
    assert o in Units(o, z.pending[o]);
    if z.phase.Anchored? {
      QuietIff(z.bits - Units(o, z.pending[o]), z.d.journal[z.phase.slot..]);
    }
  }

  /** A write that changes no record and sets no new bit. */
  lemma QuietWriteKeeps(z: Zone, e: Event)
    requires Inv(z) && Enabled(z, e) && Stamped(z, e) && (e.Commit? || e.OtherWrite?)
    ensures Inv(Apply(z, e))
  {
    DisciplineKeeps(z, e);
    var op := if e.Commit? then PutBusy(e.off, e.len) else Other;
    if e.Commit? {
      LiveOf(z.d.busy, e.off);
      assert z.d.free - {e.off} == z.d.free && z.d.busy[e.off := e.len] == z.d.busy;
    }
    QuietLoad(z, op);
    QuietPhase(z, op);
  }

  lemma QuietLoad(z: Zone, op: JournalOp)
    requires Inv(z) && (op == Other || (op.PutBusy? && Units(op.off, op.len) <= Live(z.d.busy)))
    ensures Load(Write(z.d, op)) == Load(z.d)
    ensures Held(z.(d := Write(z.d, op))) == Held(z)
  {
    ReplayWrite(z.d.zone, z.d.journal, op);
  }

  lemma QuietPhase(z: Zone, op: JournalOp)
    requires Inv(z) && (op == Other || (op.PutBusy? && Units(op.off, op.len) <= Live(z.d.busy)))
    ensures PhaseInv(z.(d := Write(z.d, op)))
  {
    match z.phase
    case Anchored(_, slot) => ReplayWrite(Snapshot(z.bits, slot, 0), z.d.journal, op);
    case Built(_, v) => ReplayWrite(v, z.d.journal, op);
    case _ =>
  }

  lemma FreeKeeps(z: Zone, e: Event)
    requires Inv(z) && Enabled(z, e) && Stamped(z, e) && e.FreeBlock?
    ensures Inv(Apply(z, e))
  {
    DisciplineKeeps(z, e);
    if Recorded(z.d, e.off, e.len) {
      FreeExact(z, e);
      BusyNotDoomed(z, e.off);
    } else {
      RetryExact(z, e);
    }
    FreePhase(z, e);
  }

  lemma SameExtents(free: map<nat, FreeValue>, o: nat, v: FreeValue, w: nat)
    requires o in free && free[o].len == v.len && free[o].ts > w && v.ts > w
    ensures Extents(free[o := v]) == Extents(free) && After(free[o := v], w) == After(free, w)
  {}

  /** A retry changes the stamp of a record that is not merged yet. */
  lemma RetryExact(z: Zone, e: Event)
    requires Inv(z) && Enabled(z, e) && e.FreeBlock? && Late(z, e.ts) && Waiting(z, e.off, e.len)
    ensures Accounted(Apply(z, e))
  {
    var z' := Apply(z, e);
    FreeKeyNotBusy(z, e.off);
    assert z'.d.busy == z.d.busy;
    SameExtents(z.d.free, e.off, FreeValue(e.len, e.ts), z.compactTs);
    SameExtents(z.d.free, e.off, FreeValue(e.len, e.ts), z.d.zone.compactTs);
    ReplayWrite(z.d.zone, z.d.journal, DeleteBusy(e.off));
    assert Held(z') == Held(z);
  }

  lemma FreeExact(z: Zone, e: Event)
    requires Inv(z) && Enabled(z, e) && e.FreeBlock? && Late(z, e.ts) && Recorded(z.d, e.off, e.len)
    ensures Accounted(Apply(z, e))
  {
    var o, v, d := e.off, FreeValue(e.len, e.ts), z.d;
    var z', us := Apply(z, e), Units(o, v.len);
    assert Live(z'.d.busy) == Live(d.busy) - us && us <= Live(d.busy) by {
      LiveOf(d.busy, o);
      LiveRemove(d.busy, o);
    }
    assert Live(After(z'.d.free, z.compactTs)) == Live(After(d.free, z.compactTs)) + us by {
      AfterFree(d.free, z.compactTs, o, v);
    }
    assert Live(After(z'.d.free, d.zone.compactTs)) == Live(After(d.free, d.zone.compactTs)) + us by {
      AfterFree(d.free, d.zone.compactTs, o, v);
    }
    MoveUnits(Live(d.busy), Live(z.pending), Live(After(d.free, z.compactTs)), us);
    MoveUnits(Live(d.busy), {}, Live(After(d.free, d.zone.compactTs)), us);
    ReplayWrite(d.zone, d.journal, DeleteBusy(o));
    assert Held(z') == Held(z);
    ExtentsAdd(d.free, o, v, Live(d.busy));
  }

  lemma MoveUnits(a: set<nat>, p: set<nat>, f: set<nat>, us: set<nat>)
    requires us <= a
    ensures a + p + f == (a - us) + p + (f + us)
    ensures a + f == (a - us) + (f + us)
  {
  }

  lemma ExtentsAdd(free: map<nat, FreeValue>, o: nat, v: FreeValue, us: set<nat>)
    requires Apart(Extents(free)) && o !in free && v.len > 0 && Units(o, v.len) <= us
    requires forall a :: a in free ==> Units(a, free[a].len) !! us
    ensures Apart(Extents(free[o := v]))
  {
    var m, m' := Extents(free), Extents(free[o := v]);
    forall a, b | a in m' && b in m' && a != b ensures Units(a, m'[a]) !! Units(b, m'[b]) {
      if a != o && b != o { assert m[a] == m'[a] && m[b] == m'[b]; }
    }
    forall a | a in m' ensures m'[a] > 0 { if a != o { assert m[a] == m'[a]; } }
  }

  lemma BusyNotDoomed(z: Zone, o: nat)
    requires Inv(z) && o in z.d.busy
    ensures o !in Doomed(z.phase)
  {
    if z.phase.Scanned? { ScannedOnDisk(z); }
  }

  lemma FreePhase(z: Zone, e: Event)
    requires PhaseInv(z) && Enabled(z, e) && e.FreeBlock? && Late(z, e.ts) && e.off !in Doomed(z.phase)
    ensures PhaseInv(Apply(z, e))
  {
    match z.phase
    case Scanned(recs) =>
      assert Restrict(z.d.free[e.off := FreeValue(e.len, e.ts)], Keys(recs)) == Restrict(z.d.free, Keys(recs));
    case Anchored(_, slot) => ReplayWrite(Snapshot(z.bits, slot, 0), z.d.journal, DeleteBusy(e.off));
    case Built(_, v) => ReplayWrite(v, z.d.journal, DeleteBusy(e.off));
    case _ =>
  }

  // ---- Compaction -----------------------------------------------------

  lemma ScannedOnDisk(z: Zone)
    requires Inv(z) && z.phase.Scanned?
    ensures Keys(z.phase.recs) <= z.d.free.Keys
    ensures forall i :: 0 <= i < |z.phase.recs| ==>
      var r := z.phase.recs[i]; r.off in z.d.free && z.d.free[r.off] == FreeValue(r.len, r.ts)
  {
    var recs := z.phase.recs;
    forall i | 0 <= i < |recs|
      ensures recs[i].off in z.d.free && z.d.free[recs[i].off] == FreeValue(recs[i].len, recs[i].ts)
    {
      ListedOnDisk(recs, Restrict(z.d.free, Keys(recs)), i);
    }
  }

  lemma {:induction false} MergeTsOneOf(recs: seq<FreeRecord>, w: nat)
    ensures w <= MergeTs(recs, w)
    ensures forall i :: 0 <= i < |recs| ==> recs[i].ts <= MergeTs(recs, w)
    ensures MergeTs(recs, w) == w || exists i :: 0 <= i < |recs| && MergeTs(recs, w) == recs[i].ts
  {
    if recs != [] {
      var k := |recs| - 1;
      MergeTsOneOf(recs[..k], w);
      if MergeTs(recs, w) != w && MergeTs(recs, w) != recs[k].ts {
        var i :| 0 <= i < k && MergeTs(recs[..k], w) == recs[..k][i].ts;
        assert recs[i].ts == MergeTs(recs, w);
      }
    }
  }

  /** A merge of the listed records clears their units and nothing else. */
  lemma {:induction false} MergeExact(base: set<nat>, recs: seq<FreeRecord>, free: map<nat, FreeValue>, w: nat)
    requires Lists(recs, free) && Apart(Extents(free)) && base !! Live(After(free, w))
    ensures MergeBits(base + Live(After(free, w)), recs, w) == base
    decreases |recs|
  {
    var bits := base + Live(After(free, w));
    if recs == [] {
      assert After(free, w) == map[];
      assert Live(map[]) == {};
    } else {
      var k := |recs| - 1;
      var r, rest := recs[k], free - {recs[k].off};
      assert Apart(Extents(rest)) by {
        assert Extents(rest) == Extents(free) - {r.off};
        LiveRemove(Extents(free), r.off);
      }
      if r.ts <= w {
        assert After(rest, w) == After(free, w);
        MergeExact(base, recs[..k], rest, w);
      } else {
        SplitAfter(free, w, r.off);
        MergeExact(base + Units(r.off, r.len), recs[..k], rest, w);
        assert bits == base + Units(r.off, r.len) + Live(After(rest, w));
      }
    }
  }

  lemma SplitAfter(free: map<nat, FreeValue>, w: nat, o: nat)
    requires Apart(Extents(free)) && o in free && free[o].ts > w
    ensures Live(After(free, w)) == Live(After(free - {o}, w)) + Units(o, free[o].len)
    ensures Live(After(free - {o}, w)) !! Units(o, free[o].len)
  {
    var m := After(free, w);
    assert Apart(m) by {
      forall a, b | a in m && b in m && a != b ensures Units(a, m[a]) !! Units(b, m[b]) {
        assert Extents(free)[a] == m[a] && Extents(free)[b] == m[b];
      }
      forall a | a in m ensures m[a] > 0 { assert Extents(free)[a] == m[a]; }
    }
    assert After(free - {o}, w) == m - {o};
    LiveRemove(m, o);
    LiveOf(m, o);
  }

  lemma MergeKeeps(z: Zone, e: Event)
    requires Inv(z) && Enabled(z, e) && Stamped(z, e) && e.MergeFree?
    ensures Inv(Apply(z, e))
  {
    DisciplineKeeps(z, e);
    ScannedOnDisk(z);
    MergeTsOneOf(z.phase.recs, z.compactTs);
    MergedBits(z);
  }

  lemma MergedBits(z: Zone)
    requires Inv(z) && z.phase.Scanned?
    ensures MergeBits(z.bits, z.phase.recs, z.compactTs)
            == ZoneDiscipline.Taken(z) + Live(After(z.d.free, MergeTs(z.phase.recs, z.compactTs)))
  {
    ScannedOnDisk(z);
    MergeTsOneOf(z.phase.recs, z.compactTs);
    AfterApart(z.d, z.compactTs, ZoneDiscipline.Taken(z));
    MergeScanned(ZoneDiscipline.Taken(z), z.phase.recs, z.d.free, z.compactTs);
  }

  lemma MergeScanned(live: set<nat>, recs: seq<FreeRecord>, free: map<nat, FreeValue>, w: nat)
    requires Apart(Extents(free)) && live !! Live(After(free, w))
    requires Lists(recs, Restrict(free, Keys(recs)))
    requires w <= MergeTs(recs, w)
    requires forall o :: o in free ==> (free[o].ts <= MergeTs(recs, w) <==> o in Keys(recs))
    ensures MergeBits(live + Live(After(free, w)), recs, w) == live + Live(After(free, MergeTs(recs, w)))
  {
    var scanned, later := Live(After(Restrict(free, Keys(recs)), w)), Live(After(free, MergeTs(recs, w)));
    SplitByKeys(free, Keys(recs), w, MergeTs(recs, w));
    Regroup(live, scanned, later);
    MergeExact(live + later, recs, Restrict(free, Keys(recs)), w);
  }

  lemma Regroup(a: set<nat>, b: set<nat>, c: set<nat>)
    ensures a + (b + c) == (a + c) + b
  {}

  /** The records newer than `w` are the scanned ones and those newer than `t`. */
  lemma SplitByKeys(free: map<nat, FreeValue>, keys: set<nat>, w: nat, t: nat)
    requires Apart(Extents(free)) && w <= t
    requires forall o :: o in free ==> (free[o].ts <= t <==> o in keys)
    ensures Apart(Extents(Restrict(free, keys)))
    ensures Live(After(free, w)) == Live(After(Restrict(free, keys), w)) + Live(After(free, t))
    ensures Live(After(Restrict(free, keys), w)) !! Live(After(free, t))
  {
    var m, s, l := After(free, w), After(Restrict(free, keys), w), After(free, t);
    LiveUnion(m, s, l);
    LiveDisjoint(Extents(free), s, l);
    LivePart(Extents(Restrict(free, keys)), Extents(free));
  }

  lemma ScanKeeps(z: Zone, e: Event)
    requires Inv(z) && Enabled(z, e) && Stamped(z, e) && e.ScanFree?
    ensures Inv(Apply(z, e))
  {
    DisciplineKeeps(z, e);
    ListsAllKeys(e.recs, z.d.free);
    assert Restrict(z.d.free, Keys(e.recs)) == z.d.free;
  }

  lemma SnapshotKeeps(z: Zone, e: Event)
    requires Inv(z) && Enabled(z, e) && Stamped(z, e) && (e.Anchor? || e.BuildSnapshot?)
    ensures Inv(Apply(z, e))
  {
    DisciplineKeeps(z, e);
    if e.Anchor? { QuietIff(z.bits, z.d.journal[e.slot..]); }
  }

  lemma BatchKeeps(z: Zone, e: Event)
    requires Inv(z) && Enabled(z, e) && Stamped(z, e) && (e.BatchApplied? || e.BatchFails?)
    ensures Inv(Apply(z, e))
  {
    DisciplineKeeps(z, e);
    if e.BatchApplied? {
      BatchExact(z);
      BatchAccounted(Apply(z, e));
    }
  }

  lemma BatchAccounted(z: Zone)
    requires z.d.zone.slot <= |z.d.journal| && Apart(Extents(z.d.free)) && z.d.zone.compactTs == z.compactTs
    requires Load(z.d) == z.bits == ZoneDiscipline.Taken(z) + Live(After(z.d.free, z.compactTs)) && Held(z) == z.pending
    ensures Accounted(z)
  {
  }

  lemma BatchExact(z: Zone)
    requires Inv(z) && z.phase.Built?
    ensures var z' := Apply(z, BatchApplied);
      && Apart(Extents(z'.d.free))
      && After(z'.d.free, z'.compactTs) == After(z.d.free, z.compactTs)
      && z'.d.zone.compactTs == z'.compactTs == z.compactTs && NewerThan(z'.d.free, z.compactTs)
      && z'.d.zone.slot <= |z'.d.journal|
      && Load(z'.d) == z'.bits == ZoneDiscipline.Taken(z) + Live(After(z.d.free, z.compactTs))
      && Held(z') == z.pending
  {
    BatchFrees(z.d.free, z.phase.keys, z.compactTs);
    ReplayWrite(z.phase.value, z.d.journal, Other);
    AllWithin(z.pending, z.bits);
  }

  /** The free records a batch leaves. */
  lemma BatchFrees(free: map<nat, FreeValue>, keys: set<nat>, w: nat)
    requires Apart(Extents(free)) && LaterOutside(free, keys, w)
    ensures Apart(Extents(free - keys)) && After(free - keys, w) == After(free, w) && NewerThan(free - keys, w)
  {
    LivePart(Extents(free - keys), Extents(free));
    AfterWithout(free, keys, w);
  }

  lemma AllWithin(m: map<nat, nat>, b: set<nat>)
    requires Apart(m) && Live(m) <= b
    ensures Within(m, b) == m
  {
    forall o | o in m ensures o in b { KeyIsLive(m, o); }
  }

  lemma AfterWithout(free: map<nat, FreeValue>, keys: set<nat>, w: nat)
    requires LaterOutside(free, keys, w)
    ensures After(free - keys, w) == After(free, w)
  {}

  lemma RestartReplayKeeps(z: Zone, e: Event)
    requires Inv(z) && Enabled(z, e) && Stamped(z, e) && e.RestartReplay?
    ensures Inv(Apply(z, e))
  {
    DisciplineKeeps(z, e);
    assert Live(map[]) == {};
    assert Held(Apply(z, e)) == map[];
  }

  lemma RestartEmptyKeeps(z: Zone, e: Event)
    requires Inv(z) && Enabled(z, e) && Stamped(z, e) && e.RestartEmpty?
    ensures Inv(Apply(z, e))
  {
    DisciplineKeeps(z, e);
    assert Live(map[]) == {};
    assert After(map[], 0) == map[] && After(map[], z.d.zone.compactTs) == map[];
    assert Held(Apply(z, e)) == map[];
  }

  lemma RestartFullScanKeeps(z: Zone, e: Event)
    requires Inv(z) && Enabled(z, e) && Stamped(z, e) && e.RestartFullScan?
    ensures Inv(Apply(z, e))
  {
    DisciplineKeeps(z, e);
    var live := Live(z.d.busy);
    assert ScanBits(e.records) == live by { ScanIsLive(e.records, z.d.busy); }
    assert Live(map[]) == {};
    assert After(map[], 0) == map[] && After(map[], z.d.zone.compactTs) == map[];
    assert ReplayFrom(Snapshot(live, |z.d.journal|, 0), z.d.journal + [Other]) == live by {
      ReplayWrite(Snapshot(live, |z.d.journal|, 0), z.d.journal, Other);
    }
    assert Held(Apply(z, e)) == map[];
  }

  lemma StepKeeps(z: Zone, e: Event)
    requires Inv(z) && Enabled(z, e) && Stamped(z, e)
    ensures Inv(Apply(z, e))
  {
    match e
    case Claim(_, _) => ClaimKeeps(z, e);
    case PersistBusy(_) => PersistBusyKeeps(z, e);
    case PersistFails(_) => PersistFailsKeeps(z, e);
    case Commit(_, _) => QuietWriteKeeps(z, e);
    case OtherWrite => QuietWriteKeeps(z, e);
    case FreeBlock(_, _, _) => FreeKeeps(z, e);
    case ScanFree(_) => ScanKeeps(z, e);
    case MergeFree => MergeKeeps(z, e);
    case Anchor(_) => SnapshotKeeps(z, e);
    case BuildSnapshot => SnapshotKeeps(z, e);
    case BatchApplied => BatchKeeps(z, e);
    case BatchFails => BatchKeeps(z, e);
    case RestartReplay => RestartReplayKeeps(z, e);
    case RestartFullScan(_, _) => RestartFullScanKeeps(z, e);
    case RestartEmpty => RestartEmptyKeeps(z, e);
  }

  // ---- Whole runs -----------------------------------------------------

  lemma {:induction false} RunKeepsInv(z: Zone, es: seq<Event>)
    requires Inv(z) && Legal(z, es, Stamped)
    ensures Inv(Run(z, es, Stamped))
    decreases |es|
  {
    if es != [] {
      StepKeeps(z, es[0]);
      RunKeepsInv(Apply(z, es[0]), es[1..]);
    }
  }

  lemma FreshInv()
    ensures Inv(FreshZone)
  {
    ZoneDiscipline.FreshIsCleanAndInv();
    assert Live(map[]) == {};
    assert After(map[], 0) == map[];
  }

  /** All free records are newer than the snapshot, so replay keeps all of them set. */
  lemma NoneLeftIff(z: Zone)
    requires Inv(z)
    ensures After(z.d.free, z.d.zone.compactTs) == Extents(z.d.free)
    ensures Live(Extents(z.d.free)) == {} <==> z.d.free == map[]
  {
    if o :| o in z.d.free {
      LiveOf(Extents(z.d.free), o);
      assert o in Units(o, Extents(z.d.free)[o]);
    }
    assert Live(map[]) == {};
  }

  lemma LoadIsLiveIff(z: Zone)
    requires Inv(z)
    ensures Load(z.d) == Live(z.d.busy) + Live(Extents(z.d.free)) + Live(Held(z))
    ensures Load(z.d) == Live(z.d.busy) <==> z.d.free == map[] && Held(z) == map[]
  {
    var live, freed, held := Live(z.d.busy), Live(Extents(z.d.free)), Live(Held(z));
    AfterApart(z.d, z.d.zone.compactTs, live);
    NoneLeftIff(z);
    LivePart(Held(z), z.pending);
    if o :| o in Held(z) { KeyIsLive(Held(z), o); }
    assert Live(map[]) == {};
    assert live + freed + held == live <==> freed == {} && held == {};
  }

  /** What strategy 2 rebuilds: the live units, every freed one and the claims that the
      snapshot holds.  It is what strategy 1 scans exactly when no free record and no
      such claim is left. */
  lemma ReplayIsScanIff(es: seq<Event>)
    requires Legal(FreshZone, es, Stamped)
    ensures var z := Run(FreshZone, es, Stamped);
      && z.d.zone.slot <= |z.d.journal|
      && Load(z.d) == Live(z.d.busy) + Live(Extents(z.d.free)) + Live(Held(z))
      && (Load(z.d) == Live(z.d.busy) <==> z.d.free == map[] && Held(z) == map[])
  {
    FreshInv();
    RunKeepsInv(FreshZone, es);
    LoadIsLiveIff(Run(FreshZone, es, Stamped));
  }
}
