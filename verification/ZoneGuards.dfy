/** What a caller would have to check.

A free, a commit, the roll-back of a claim, the anchor of a snapshot and a restart act
on records that may have changed since somebody saw them.  For each the exact
condition is given under which the zone's books balance, now and once the compaction
under way has taken its next step on them, and with it the exact condition for the
books to balance throughout a run. */
module ZoneGuards {
  import opened Bitmap
  import opened ZoneProtocol
  import opened ZoneExact
  import ZoneDiscipline
  import ZoneReady

  /** The books: live, claimed and freed extents are apart from each other, and
      memory and replay hold exactly their units. */
  ghost predicate Balanced(z: Zone) {
    && Accounted(z) && Apart(z.d.busy) && Apart(z.pending) && Live(z.d.busy) !! Live(z.pending)
    && ZoneDiscipline.FreeApart(z.d, Live(z.d.busy) + Live(z.pending))
  }

  /** Balanced, and still so once a scan under way is merged, or a snapshot under way
      written. */
  ghost predicate Sound(z: Zone) {
    && Balanced(z)
    && (z.phase.Scanned? ==> Balanced(Apply(z, MergeFree)))
    && (z.phase.Anchored? ==> Balanced(Apply(Apply(z, BuildSnapshot), BatchApplied)))
    && (z.phase.Built? ==> Balanced(Apply(z, BatchApplied)))
  }

  lemma InvIsSound(z: Zone)
    requires Inv(z)
    ensures Sound(z)
  {
    match z.phase
    case Scanned(_) => StepKeeps(z, MergeFree);
    case Anchored(_, _) =>
      StepKeeps(z, BuildSnapshot);
      StepKeeps(Apply(z, BuildSnapshot), BatchApplied);
    case Built(_, _) => StepKeeps(z, BatchApplied);
    case _ =>
  }

  // ---- The extent on the books at an offset ---------------------------

  /** The units on the books that belong to offset `o`. */
  ghost function Own(z: Zone, o: nat): set<nat> {
    if o in z.d.busy then Units(o, z.d.busy[o])
    else if o in z.d.free && z.d.free[o].ts > z.compactTs then Units(o, z.d.free[o].len)
    else {}
  }

  /** The units on the books that do not. */
  ghost function Rest(z: Zone, o: nat): set<nat> {
    Live(z.d.busy - {o}) + Live(z.pending) + Live(After(z.d.free - {o}, z.compactTs))
  }

  lemma BooksAtBusy(z: Zone, o: nat)
    requires Balanced(z) && z.d.busy.Keys !! z.d.free.Keys && o in z.d.busy
    ensures z.bits == Rest(z, o) + Own(z, o) && Rest(z, o) !! Own(z, o)
  {
    AfterApart(z.d, z.compactTs, Live(z.d.busy) + Live(z.pending));
    LiveOf(z.d.busy, o);
    LiveRemove(z.d.busy, o);
    assert z.d.free - {o} == z.d.free;
  }

  lemma BooksAtFree(z: Zone, o: nat)
    requires Balanced(z) && o !in z.d.busy && o in z.d.free && z.d.free[o].ts > z.compactTs
    ensures z.bits == Rest(z, o) + Own(z, o) && Rest(z, o) !! Own(z, o)
  {
    SplitAfter(z.d.free, z.compactTs, o);
    assert z.d.busy - {o} == z.d.busy;
    assert Units(o, z.d.free[o].len) !! Live(z.d.busy) + Live(z.pending);
  }

  lemma BooksAt(z: Zone, o: nat)
    requires Balanced(z) && z.d.busy.Keys !! z.d.free.Keys
    ensures z.bits == Rest(z, o) + Own(z, o) && Rest(z, o) !! Own(z, o)
  {
    if o in z.d.busy {
      BooksAtBusy(z, o);
    } else if o in z.d.free && z.d.free[o].ts > z.compactTs {
      BooksAtFree(z, o);
    } else {
      assert z.d.busy - {o} == z.d.busy && After(z.d.free - {o}, z.compactTs) == After(z.d.free, z.compactTs);
    }
  }

  lemma SameExtent(r: set<nat>, a: set<nat>, b: set<nat>)
    requires r + a == r + b && r !! a && r !! b
    ensures a == b
  {
    forall u ensures u in a <==> u in b {
      assert u in r + a <==> u in r + b;
    }
  }

  lemma SameLength(o: nat, n: nat, m: nat)
    requires Units(o, n) == Units(o, m)
    ensures n == m
  {
    assert n < m ==> o + n in Units(o, m) && o + n !in Units(o, n);
    assert m < n ==> o + m in Units(o, n) && o + m !in Units(o, m);
  }

  /** Writing extent `n` at offset `o`, as busy or as free, balances only if it is the
      extent already on the books there. */
  lemma BalancedOnlyIf(z: Zone, z': Zone, o: nat, n: nat)
    requires Inv(z) && Balanced(z') && z'.d.busy.Keys !! z'.d.free.Keys
    requires z'.bits == z.bits && Rest(z', o) == Rest(z, o) && Own(z', o) == Units(o, n) && n > 0
    ensures Recorded(z.d, o, n) || Waiting(z, o, n)
  {
    BooksAt(z, o);
    BooksAt(z', o);
    SameExtent(Rest(z, o), Own(z, o), Own(z', o));
    assert o in Units(o, n);
    if o in z.d.busy {
      SameLength(o, n, z.d.busy[o]);
    } else if o in z.d.free && z.d.free[o].ts > z.compactTs {
      SameLength(o, n, z.d.free[o].len);
    }
  }

  // ---- Merged, being merged, too late ---------------------------------

  /** A free record at or below a watermark counts for nothing above it. */
  lemma NotCounted(z: Zone, o: nat, w: nat)
    requires Balanced(z) && o in z.d.free && z.d.free[o].ts <= w
    ensures o !in Live(z.d.busy) + Live(z.pending) + Live(After(z.d.free, w))
  {
    var m := Extents(z.d.free);
    assert m[o] > 0;
    assert o in Units(o, m[o]);
    assert o !in Live(z.d.busy) + Live(z.pending);
    forall u | u in Live(After(z.d.free, w)) ensures u != o {
      var a :| a in After(z.d.free, w) && u in Units(a, After(z.d.free, w)[a]);
      assert Units(a, m[a]) !! Units(o, m[o]);
    }
  }

  /** What a merge of the scan under way leaves set. */
  lemma MergedUnits(z: Zone)
    requires Inv(z) && z.phase.Scanned?
    ensures Apply(z, MergeFree).bits ==
      ZoneDiscipline.Taken(z) + Live(After(z.d.free, MergeTs(z.phase.recs, z.compactTs)))
  {
    MergedBits(z);
  }

  /** A record that waits and is doomed is in the scan under way, whose merge clears it. */
  lemma DoomedIsCleared(z: Zone, o: nat, n: nat)
    requires Inv(z) && Waiting(z, o, n) && o in Doomed(z.phase)
    ensures z.phase.Scanned? && o !in Apply(z, MergeFree).bits && n > 0
  {
    var recs := z.phase.recs;
    assert Extents(z.d.free)[o] == n > 0;
    InvIsSound(z);
    var i :| 0 <= i < |recs| && recs[i].off == o;
    ScannedOnDisk(z);
    MergeTsOneOf(recs, z.compactTs);
    NotCounted(z, o, MergeTs(recs, z.compactTs));
    MergedUnits(z);
  }

  /** The first unit of an extent on the books is set, replayed, and survives the merge of
      a scan under way. */
  lemma OnBooksIsSet(z: Zone, o: nat, n: nat)
    requires Inv(z) && OnBooks(z, o, n)
    ensures o in z.bits && o in Load(z.d) && n > 0
    ensures z.phase.Scanned? ==> o in Apply(z, MergeFree).bits
  {
    if Recorded(z.d, o, n) {
      LiveOf(z.d.busy, o);
      assert o in Units(o, n);
      if z.phase.Scanned? { MergedUnits(z); }
    } else {
      assert Extents(z.d.free)[o] == n > 0;
      assert o in Units(o, n);
      LiveOf(After(z.d.free, z.compactTs), o);
      LiveOf(After(z.d.free, z.d.zone.compactTs), o);
      if z.phase.Scanned? {
        LiveOf(After(z.d.free, MergeTs(z.phase.recs, z.compactTs)), o);
        MergedUnits(z);
      }
    }
  }

  // ---- Frees ----------------------------------------------------------

  /** A free, which the code persists unchecked, with a late stamp: the books balance
      exactly when there is a busy record with the extent it names, or a free record
      with that extent that is neither merged nor listed for a merge. */
  lemma FreeBalancesIff(z: Zone, o: nat, n: nat, ts: nat)
    requires Inv(z) && Late(z, ts)
    ensures Sound(Apply(z, FreeBlock(o, n, ts))) <==> OnBooks(z, o, n)
    ensures Inv(Apply(z, FreeBlock(o, n, ts))) <==> OnBooks(z, o, n)
  {
    var e := FreeBlock(o, n, ts);
    var z' := Apply(z, e);
    if OnBooks(z, o, n) {
      StepKeeps(z, e);
    } else if Waiting(z, o, n) {
      DoomedIsCleared(z, o, n);
      FreedWhileListed(z, o, n, ts);
    } else if Balanced(z') {
      assert Extents(z'.d.free)[o] == n;
      SameRestFree(z, o, n, ts);
      BalancedOnlyIf(z, z', o, n);
    }
    if Inv(z') { InvIsSound(z'); }
  }

  /** Freed again while its old record is being merged: the merge clears its units, but
      the new record says they are still set. */
  lemma FreedWhileListed(z: Zone, o: nat, n: nat, ts: nat)
    requires Late(z, ts) && n > 0 && z.phase.Scanned? && o !in Apply(z, MergeFree).bits
    ensures !Sound(Apply(z, FreeBlock(o, n, ts)))
  {
    var z'' := Apply(Apply(z, FreeBlock(o, n, ts)), MergeFree);
    assert o in Units(o, n);
    LiveOf(After(z''.d.free, z''.compactTs), o);
  }

  /** A free on the books: they stay balanced exactly when its stamp is above both
      watermarks and the one that the merge of a scan under way will set.  With any
      other stamp units stay set that no record accounts for. */
  lemma StampBalancesIff(z: Zone, o: nat, n: nat, ts: nat)
    requires Inv(z) && OnBooks(z, o, n)
    ensures Sound(Apply(z, FreeBlock(o, n, ts))) <==> Late(z, ts)
    ensures Inv(Apply(z, FreeBlock(o, n, ts))) <==> Late(z, ts)
  {
    var z' := Apply(z, FreeBlock(o, n, ts));
    if Late(z, ts) {
      StepKeeps(z, FreeBlock(o, n, ts));
    } else {
      OnBooksIsSet(z, o, n);
      EarlyStamp(z, o, n, ts);
    }
    if Inv(z') { InvIsSound(z'); }
  }

  lemma EarlyStamp(z: Zone, o: nat, n: nat, ts: nat)
    requires !Late(z, ts) && z.d.zone.slot <= |z.d.journal| && o in z.bits && o in Load(z.d)
    requires z.phase.Scanned? ==> o in Apply(z, MergeFree).bits
    ensures !Sound(Apply(z, FreeBlock(o, n, ts)))
  {
    var z' := Apply(z, FreeBlock(o, n, ts));
    ReplayWrite(z.d.zone, z.d.journal, DeleteBusy(o));
    if Sound(z') {
      if ts <= z.compactTs {
        NotCounted(z', o, z.compactTs);
      } else if ts <= z.d.zone.compactTs {
        NotCounted(z', o, z.d.zone.compactTs);
      } else {
        NotCounted(Apply(z', MergeFree), o, MergeTs(z.phase.recs, z.compactTs));
      }
    }
  }

  lemma SameRestFree(z: Zone, o: nat, n: nat, ts: nat)
    requires Inv(z) && ts > z.compactTs
    ensures var z' := Apply(z, FreeBlock(o, n, ts));
      Rest(z', o) == Rest(z, o) && Own(z', o) == Units(o, n) && z'.d.busy.Keys !! z'.d.free.Keys
  {
    var z' := Apply(z, FreeBlock(o, n, ts));
    assert z'.d.busy - {o} == z.d.busy - {o} && z'.d.free - {o} == z.d.free - {o};
  }

  // ---- Commits --------------------------------------------------------

  /** A commit writes back the record it read.  The books stay balanced exactly when
      that record is still there, or has been freed and is neither merged nor listed
      for a merge. */
  lemma CommitBalancesIff(z: Zone, o: nat, n: nat)
    requires Inv(z)
    ensures Sound(Apply(z, Commit(o, n))) <==> OnBooks(z, o, n)
    ensures Inv(Apply(z, Commit(o, n))) <==> OnBooks(z, o, n)
  {
    var z' := Apply(z, Commit(o, n));
    if Recorded(z.d, o, n) {
      StepKeeps(z, Commit(o, n));
    } else if OnBooks(z, o, n) {
      RevivedKeeps(z, o, n);
    } else if Waiting(z, o, n) {
      DoomedIsCleared(z, o, n);
      CommittedWhileListed(z, o, n);
    } else if Balanced(z') {
      assert z'.d.busy[o] == n > 0;
      SameRestCommit(z, o, n);
      BalancedOnlyIf(z, z', o, n);
    }
    if Inv(z') { InvIsSound(z'); }
  }

  /** Brought back while it is being merged: the merge clears a live block. */
  lemma CommittedWhileListed(z: Zone, o: nat, n: nat)
    requires n > 0 && z.phase.Scanned? && o !in Apply(z, MergeFree).bits
    ensures !Sound(Apply(z, Commit(o, n)))
  {
    var z'' := Apply(Apply(z, Commit(o, n)), MergeFree);
    assert o in Units(o, n);
    LiveOf(z''.d.busy, o);
  }

  lemma SameRestCommit(z: Zone, o: nat, n: nat)
    requires Inv(z)
    ensures var z' := Apply(z, Commit(o, n));
      Rest(z', o) == Rest(z, o) && Own(z', o) == Units(o, n) && z'.d.busy.Keys !! z'.d.free.Keys
  {
    var z' := Apply(z, Commit(o, n));
    assert z'.d.busy - {o} == z.d.busy - {o} && z'.d.free - {o} == z.d.free - {o};
  }

  /** Freed and brought back before any merge. */
  lemma RevivedBalances(z: Zone, o: nat, n: nat)
    requires Inv(z) && Waiting(z, o, n)
    ensures Balanced(Apply(z, Commit(o, n)))
  {
    var z', us := Apply(z, Commit(o, n)), Units(o, n);
    FreeKeyNotBusy(z, o);
    LiveInsert(z.d.busy, o, n);
    SplitAfter(z.d.free, z.compactTs, o);
    SplitAfter(z.d.free, z.d.zone.compactTs, o);
    BusyRevived(z, o, n);
    FreeRevived(z.d.free, o, ZoneDiscipline.Taken(z), z.d);
    RevivedUnits(z, o, n);
    SetAlready(z.d.zone, z.d.journal, o, n);
    assert Held(z') == Held(z);
    Moved(Live(z.d.busy), Live(z.pending), Live(After(z.d.free - {o}, z.compactTs)), us);
    Moved(Live(z.d.busy), Live(Held(z)), Live(After(z.d.free - {o}, z.d.zone.compactTs)), us);
  }

  lemma Moved(a: set<nat>, p: set<nat>, f: set<nat>, us: set<nat>)
    ensures a + p + (f + us) == (a + us) + p + f
    ensures a + (f + us) + p == (a + us) + f + p
  {}

  lemma BusyRevived(z: Zone, o: nat, n: nat)
    requires Inv(z) && Retried(z.d, o, n) && o !in z.d.busy
    ensures Apart(z.d.busy[o := n]) && Units(o, n) !! Live(z.pending) && o in Units(o, n)
  {
    assert Extents(z.d.free)[o] == n > 0;
    forall a | a in z.d.busy ensures Units(a, z.d.busy[a]) !! Units(o, n) { LiveOf(z.d.busy, a); }
  }

  lemma FreeRevived(free: map<nat, FreeValue>, o: nat, us: set<nat>, d: Durable)
    requires Apart(Extents(free)) && o in free && d.free == free && ZoneDiscipline.FreeApart(d, us)
    ensures Apart(Extents(free - {o}))
    ensures forall a :: a in free - {o} ==> Units(a, free[a].len) !! us + Units(o, free[o].len)
  {
    var m: map<nat, nat> := Extents(free);
    assert Extents(free - {o}) == m - {o};
    LiveRemove(m, o);
    forall a | a in free - {o} ensures Units(a, free[a].len) !! us + Units(o, free[o].len) {
      assert Units(a, m[a]) !! Units(o, m[o]);
    }
  }

  lemma RevivedKeeps(z: Zone, o: nat, n: nat)
    requires Inv(z) && Waiting(z, o, n) && o !in Doomed(z.phase)
    ensures Inv(Apply(z, Commit(o, n)))
  {
    RevivedBalances(z, o, n);
    FreeKeyNotBusy(z, o);
    RevivedUnits(z, o, n);
    SetAlready(z.d.zone, z.d.journal, o, n);
    RevivedPhase(z, o, n);
    RevivedApart(z, o, n);
    RevivedDiscipline(z, Apply(z, Commit(o, n)));
  }

  lemma RevivedUnits(z: Zone, o: nat, n: nat)
    requires Inv(z) && Waiting(z, o, n)
    ensures Units(o, n) <= z.bits && Units(o, n) <= Load(z.d)
    ensures o in Units(o, n)
  {
    assert Extents(z.d.free)[o] == n > 0;
    SplitAfter(z.d.free, z.compactTs, o);
    SplitAfter(z.d.free, z.d.zone.compactTs, o);
  }

  /** The books and the phase are all the invariant of the discipline asks for. */
  lemma RevivedDiscipline(z: Zone, z': Zone)
    requires Inv(z) && Balanced(z') && ZoneDiscipline.PhaseInv(z')
    requires z'.pending == z.pending && Load(z'.d) == Load(z.d)
    requires z'.d.busy.Keys !! z'.d.free.Keys && z'.d.busy.Keys !! z'.pending.Keys
    ensures ZoneDiscipline.Inv(z')
  {
  }

  lemma RevivedPhase(z: Zone, o: nat, n: nat)
    requires PhaseInv(z) && o in z.d.free && o !in Doomed(z.phase) && Units(o, n) <= z.bits
    ensures PhaseInv(Apply(z, Commit(o, n)))
  {
    match z.phase
    case Scanned(recs) => assert Restrict(z.d.free - {o}, Keys(recs)) == Restrict(z.d.free, Keys(recs));
    case Anchored(_, slot) => SetAlready(Snapshot(z.bits, slot, 0), z.d.journal, o, n);
    case Built(_, v) => SetAlready(v, z.d.journal, o, n);
    case _ =>
  }

  lemma SetAlready(v: Snapshot, journal: seq<JournalOp>, o: nat, n: nat)
    requires v.slot <= |journal| && Units(o, n) <= ReplayFrom(v, journal)
    ensures ReplayFrom(v, journal + [PutBusy(o, n)]) == ReplayFrom(v, journal)
  {
    ReplayWrite(v, journal, PutBusy(o, n));
  }

  lemma RevivedApart(z: Zone, o: nat, n: nat)
    requires Inv(z) && Retried(z.d, o, n) && o !in z.d.busy && o !in Doomed(z.phase) && Units(o, n) <= z.bits
    ensures ZoneDiscipline.PhaseInv(Apply(z, Commit(o, n)))
  {
    LiveInsert(z.d.busy, o, n);
    match z.phase
    case Scanned(recs) =>
      ScannedOnDisk(z);
      forall i | 0 <= i < |recs| ensures Units(recs[i].off, recs[i].len) !! Units(o, n) {
        assert recs[i].off in Keys(recs);
        assert Extents(z.d.free)[recs[i].off] == recs[i].len && Extents(z.d.free)[o] == n;
      }
    case Built(_, v) => SetAlready(v, z.d.journal, o, n);
    case _ =>
  }

  // ---- Roll-backs -----------------------------------------------------

  /** A persist that reported an error left the records as they were or wrote them.
      Rolling the claim back is safe exactly when there is no record for it. */
  lemma RollBackSafeIff(z: Zone, o: nat, applied: bool)
    requires ZoneDiscipline.Inv(z) && o in z.pending
    ensures var z1 := if applied then z.(d := BusyWritten(z.d, o, z.pending[o])) else z;
      Safe(RolledBack(z1, o)) <==> o !in z1.d.busy
  {
    var n := z.pending[o];
    LiveOf(z.pending, o);
    if applied {
      LiveOf(z.d.busy[o := n], o);
      assert o in Units(o, n);
    }
  }

  /** A persist that was applied and reports an error always unbalances the books. */
  lemma LostUnbalances(z: Zone, o: nat)
    requires Inv(z) && o in z.pending
    ensures !Sound(Apply(z, PersistLost(o))) && !Inv(Apply(z, PersistLost(o)))
  {
    var z', n := Apply(z, PersistLost(o)), z.pending[o];
    LiveOf(z.pending, o);
    LiveOf(z'.d.busy, o);
    assert o in Units(o, n);
  }

  /** A claim that is gone counts for nothing. */
  lemma GoneNotCounted(z: Zone, o: nat, free: map<nat, FreeValue>, w: nat, held: map<nat, nat>)
    requires Inv(z) && o in z.pending && Part(held, z.pending - {o})
    requires forall a :: a in free ==> a in z.d.free && free[a] == z.d.free[a]
    ensures o !in Live(z.d.busy) + Live(After(free, w)) + Live(held)
  {
    LiveOf(z.pending, o);
    assert o in Units(o, z.pending[o]);
    LiveRemove(z.pending, o);
    LivePart(held, z.pending - {o});
    LivePart(After(free, w), After(z.d.free, w));
    AfterApart(z.d, w, ZoneDiscipline.Taken(z));
  }

  /** A roll-back leaves the books balanced exactly when no snapshot, written, built or
      about to be built, holds the claim. */
  lemma RollBackBalancesIff(z: Zone, o: nat)
    requires Inv(z) && o in z.pending
    ensures Sound(RolledBack(z, o)) <==> Unheld(z, o)
    ensures Inv(RolledBack(z, o)) <==> Unheld(z, o)
  {
    var z' := RolledBack(z, o);
    if Unheld(z, o) {
      StepKeeps(z, PersistFails(o));
    } else if Sound(z') {
      GoneNotCounted(z, o, z.d.free, z.d.zone.compactTs, Held(z'));
      HeldByBuilt(z, o);
    }
    if Inv(z') { InvIsSound(z'); }
  }

  lemma HeldByBuilt(z: Zone, o: nat)
    requires Inv(z) && o in z.pending && Sound(RolledBack(z, o))
    ensures z.phase.Built? ==> o !in ReplayFrom(z.phase.value, z.d.journal)
    ensures z.phase.Anchored? ==> Quiet(z.bits - Units(o, z.pending[o]), z.d.journal[z.phase.slot..])
  {
    var z' := RolledBack(z, o);
    LiveOf(z.pending, o);
    if z.phase.Built? {
      var z'' := Apply(z', BatchApplied);
      ReplayWrite(z.phase.value, z.d.journal, Other);
      GoneNotCounted(z, o, z''.d.free, z''.d.zone.compactTs, Held(z''));
    } else if z.phase.Anchored? {
      QuietAnchor(z');
    }
  }

  /** If an anchored compaction leaves the books balanced, no put after its anchor is for a
      clear extent. */
  lemma QuietAnchor(z: Zone)
    requires z.phase.Anchored? && z.phase.slot <= |z.d.journal|
    requires Balanced(Apply(Apply(z, BuildSnapshot), BatchApplied))
    ensures Quiet(z.bits, z.d.journal[z.phase.slot..])
  {
    var z' := Apply(Apply(z, BuildSnapshot), BatchApplied);
    ZoneReady.FinishedCompaction(z);
    LivePart(Held(z'), z'.pending);
    ReplayGrows(z.bits, z.d.journal[z.phase.slot..]);
    QuietIff(z.bits, z.d.journal[z.phase.slot..]);
  }

  // ---- Anchors --------------------------------------------------------

  /** An anchor leaves the books balanced, now and once its snapshot is written, exactly
      when no put after it is for a clear extent. */
  lemma AnchorBalancesIff(z: Zone, slot: nat)
    requires Inv(z) && Enabled(z, Anchor(slot))
    ensures Sound(Apply(z, Anchor(slot))) <==> Quiet(z.bits, z.d.journal[slot..])
    ensures Inv(Apply(z, Anchor(slot))) <==> Quiet(z.bits, z.d.journal[slot..])
  {
    var z' := Apply(z, Anchor(slot));
    if Quiet(z.bits, z.d.journal[slot..]) {
      StepKeeps(z, Anchor(slot));
    } else if Sound(z') {
      QuietAnchor(z');
    }
    if Inv(z') { InvIsSound(z'); }
  }

  // ---- Restarts -------------------------------------------------------

  /** A restart by replay leaves the books balanced exactly when the snapshot holds no
      claim: the units of a claim that it holds stay set with no record. */
  lemma ReplayBalancesIff(z: Zone)
    requires Inv(z)
    ensures Sound(Apply(z, RestartReplay)) <==> NoneHeld(z)
    ensures Inv(Apply(z, RestartReplay)) <==> NoneHeld(z)
  {
    var z' := Apply(z, RestartReplay);
    if NoneHeld(z) {
      StepKeeps(z, RestartReplay);
      InvIsSound(z');
    } else {
      var o :| o in Held(z);
      Forgotten(z, z', o);
    }
  }

  /** A held claim that is forgotten is replayed, but counts for nothing. */
  lemma Forgotten(z: Zone, z': Zone, o: nat)
    requires Inv(z) && o in Held(z)
    requires z'.d == z.d && z'.pending == map[]
    ensures !Balanced(z') && !Inv(z')
  {
    assert Held(z') == map[];
    GoneNotCounted(z, o, z.d.free, z.d.zone.compactTs, Held(z'));
  }

  /** A full scan leaves the books balanced, and the zone clean, exactly when no free
      record is left, and no claim in a snapshot that it goes on with. */
  lemma FullScanBalancesIff(z: Zone, recs: seq<BusyRecord>, written: bool)
    requires Inv(z) && ListsBusy(recs, z.d.busy)
    ensures var z' := Apply(z, RestartFullScan(recs, written));
      var ok := z.d.free == map[] && (written || NoneHeld(z));
      (Sound(z') <==> ok) && (Inv(z') <==> ok) && (ZoneDiscipline.Clean(z') <==> ok)
  {
    var e := RestartFullScan(recs, written);
    var z' := Apply(z, e);
    ScanIsLive(recs, z.d.busy);
    if z.d.free != map[] {
      ForgottenFree(z, z');
    } else if written || NoneHeld(z) {
      StepKeeps(z, e);
      InvIsSound(z');
      ZoneReady.CleanIff(z');
    } else {
      var o :| o in Held(z);
      Forgotten(z, z', o);
      KeyIsLive(z.pending, o);
      assert o in Load(z'.d) && o !in z'.bits;
    }
  }

  lemma ForgottenFree(z: Zone, z': Zone)
    requires Inv(z) && z.d.free != map[] && z'.bits <= Live(z.d.busy)
    requires z'.d.free == z.d.free && z'.compactTs == 0
    ensures !Balanced(z') && !ZoneDiscipline.Clean(z') && !Inv(z')
  {
    var o :| o in z.d.free;
    assert Extents(z.d.free)[o] > 0;
    assert o in Units(o, z.d.free[o].len);
    LiveOf(After(z.d.free, 0), o);
  }

  /** A zone that comes up empty is safe exactly when nothing was live, and its books
      balance exactly when nothing was freed, nor held by the snapshot, either. */
  lemma EmptyRestartIff(z: Zone)
    requires Inv(z)
    ensures var z' := Apply(z, RestartEmpty);
      var ok := z.d.busy == map[] && z.d.free == map[] && NoneHeld(z);
      (Safe(z') <==> z.d.busy == map[]) && (Sound(z') <==> ok) && (Inv(z') <==> ok)
  {
    var z' := Apply(z, RestartEmpty);
    assert Live(map[]) == {};
    if o :| o in z.d.busy {
      LiveOf(z.d.busy, o);
      assert o in Units(o, z.d.busy[o]);
    } else if z.d.free != map[] {
      ForgottenFree(z, z');
    } else if o :| o in Held(z) {
      Forgotten(z, z', o);
    } else {
      StepKeeps(z, RestartEmpty);
      InvIsSound(z');
    }
  }

  // ---- Whole runs -----------------------------------------------------

  /** Claims in ready zones, and frees that are on the books or at least stamped late.
      Everything else is free: commits, lost answers, roll-backs, scans with claims in
      flight, lost anchors and restarts of every kind. */
  ghost predicate Open(z: Zone, e: Event) {
    match e
    case Claim(_, _) => ZoneReady.Ready(z)
    case FreeBlock(o, n, ts) => Late(z, ts) || OnBooks(z, o, n)
    case _ => true
  }

  /** What would have to be checked before the step. */
  ghost predicate Guarded(z: Zone, e: Event) {
    match e
    case FreeBlock(o, n, ts) => Late(z, ts) && OnBooks(z, o, n)
    case Commit(o, n) => OnBooks(z, o, n)
    case PersistFails(o) => o in z.pending && Unheld(z, o)
    case PersistLost(_) => false
    case Anchor(slot) => slot <= |z.d.journal| && Quiet(z.bits, z.d.journal[slot..])
    case RestartReplay => NoneHeld(z)
    case RestartFullScan(_, written) => z.d.free == map[] && (written || NoneHeld(z))
    case RestartEmpty => z.d.busy == map[] && z.d.free == map[] && NoneHeld(z)
    case _ => true
  }

  lemma StepBalancesIff(z: Zone, e: Event)
    requires Inv(z) && Enabled(z, e) && Open(z, e)
    ensures Sound(Apply(z, e)) <==> Guarded(z, e)
    ensures Inv(Apply(z, e)) <==> Guarded(z, e)
  {
    match e
    case FreeBlock(o, n, ts) => if Late(z, ts) { FreeBalancesIff(z, o, n, ts); } else { StampBalancesIff(z, o, n, ts); }
    case Commit(o, n) => CommitBalancesIff(z, o, n);
    case PersistFails(o) => RollBackBalancesIff(z, o);
    case PersistLost(o) => LostUnbalances(z, o);
    case Anchor(slot) => AnchorBalancesIff(z, slot);
    case RestartReplay => ReplayBalancesIff(z);
    case RestartFullScan(recs, written) => FullScanBalancesIff(z, recs, written);
    case RestartEmpty => EmptyRestartIff(z);
    case _ => OtherBalances(z, e);
  }

  lemma OtherBalances(z: Zone, e: Event)
    requires Inv(z) && Enabled(z, e) && Open(z, e)
    requires e.Claim? || e.PersistBusy? || e.OtherWrite? || e.ScanFree? || e.MergeFree? || e.BuildSnapshot?
             || e.BatchApplied? || e.BatchFails?
    ensures Inv(Apply(z, e)) && Sound(Apply(z, e))
  {
    ZoneReady.CleanIff(z);
    StepKeeps(z, e);
    InvIsSound(Apply(z, e));
  }

  ghost predicate SoundThroughout(z: Zone, es: seq<Event>)
    requires Legal(z, es, Open)
    decreases |es|
  {
    Sound(z) && (es == [] || SoundThroughout(Apply(z, es[0]), es[1..]))
  }

  ghost predicate AllGuarded(z: Zone, es: seq<Event>)
    requires Legal(z, es, Open)
    decreases |es|
  {
    es == [] || (Guarded(z, es[0]) && AllGuarded(Apply(z, es[0]), es[1..]))
  }

  lemma {:induction false} SoundIffGuarded(z: Zone, es: seq<Event>)
    requires Inv(z) && Legal(z, es, Open)
    ensures SoundThroughout(z, es) <==> AllGuarded(z, es)
    ensures AllGuarded(z, es) ==> Inv(Run(z, es, Open))
    decreases |es|
  {
    InvIsSound(z);
    if es != [] {
      StepBalancesIff(z, es[0]);
      if Guarded(z, es[0]) {
        SoundIffGuarded(Apply(z, es[0]), es[1..]);
      } else {
        Unsound(Apply(z, es[0]), es[1..]);
      }
    }
  }

  lemma Unsound(z: Zone, es: seq<Event>)
    requires Legal(z, es, Open) && !Sound(z)
    ensures !SoundThroughout(z, es)
  {
  }

  /** In every run from a fresh zone, with frees and commits of any extent, lost answers,
      compactions with claims in flight, lost anchors and restarts of every kind: the
      books balance throughout exactly when every step was guarded, and then no live
      block is lost. */
  lemma BooksBalanceIff(es: seq<Event>)
    requires Legal(FreshZone, es, Open)
    ensures SoundThroughout(FreshZone, es) <==> AllGuarded(FreshZone, es)
    ensures AllGuarded(FreshZone, es) ==> Safe(Run(FreshZone, es, Open))
  {
    FreshInv();
    SoundIffGuarded(FreshZone, es);
  }
}
