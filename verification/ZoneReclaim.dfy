/** What a compaction reclaims, undisturbed and with persists, roll-backs, frees, commits
and other writes falling between its steps. */
module ZoneReclaim {
  import opened Bitmap
  import opened ZoneProtocol
  import opened ZoneExact
  import ZoneDiscipline

  // ---- With other steps in between ------------------------------------

  /** The steps that may fall between a scan and its batch. */
  predicate Between(e: Event) {
    || e.MergeFree? || e.Anchor? || e.BuildSnapshot?
    || e.PersistBusy? || e.PersistFails? || e.FreeBlock? || e.Commit? || e.OtherWrite?
  }

  ghost predicate AllBetween(es: seq<Event>) {
    forall i :: 0 <= i < |es| ==> Between(es[i])
  }

  /** Under way since `keys` were listed with `taken` the live and claimed units: no other
      unit was taken since, and whatever was freed since had been taken. */
  ghost predicate UnderWay(z: Zone, keys: set<nat>, taken: set<nat>) {
    && !z.phase.Idle? && Doomed(z.phase) == keys
    && ZoneDiscipline.Taken(z) <= taken
    && forall o :: o in z.d.free && o !in keys ==> Units(o, z.d.free[o].len) <= taken
  }

  lemma BetweenKeeps(z: Zone, e: Event, keys: set<nat>, taken: set<nat>)
    requires Inv(z) && Enabled(z, e) && Stamped(z, e) && Between(e) && UnderWay(z, keys, taken)
    ensures UnderWay(Apply(z, e), keys, taken)
  {
    match e
    case FreeBlock(o, n, _) =>
      if Recorded(z.d, o, n) {
        LiveOf(z.d.busy, o);
        LiveRemove(z.d.busy, o);
      } else {
        FreeKeyNotBusy(z, o);
        assert z.d.busy - {o} == z.d.busy;
      }
    case Commit(o, n) => assert z.d.busy[o := n] == z.d.busy;
    case PersistBusy(o) => PersistMoves(z, o);
    case PersistFails(o) => LiveRemove(z.pending, o);
    case _ =>
  }

  lemma {:induction false} BetweenRun(z: Zone, es: seq<Event>, keys: set<nat>, taken: set<nat>)
    requires Inv(z) && Legal(z, es, Stamped) && AllBetween(es) && UnderWay(z, keys, taken)
    ensures Inv(Run(z, es, Stamped)) && UnderWay(Run(z, es, Stamped), keys, taken)
    decreases |es|
  {
    if es != [] {
      BetweenKeeps(z, es[0], keys, taken);
      StepKeeps(z, es[0]);
      BetweenRun(Apply(z, es[0]), es[1..], keys, taken);
    }
  }

  /** The units a listing of free records covers. */
  ghost function Listed(recs: seq<FreeRecord>): set<nat> {
    set i, u | 0 <= i < |recs| && u in Units(recs[i].off, recs[i].len) :: u
  }

  /** Whatever is persisted, rolled back, freed, committed or written between its steps,
      a compaction that goes through deletes every record it listed and clears all
      their units.  What stays set is exactly the live and claimed units and those
      freed since the listing, whose records stay for the next compaction, and the
      zone is clean. */
  lemma ReclaimsListed(z: Zone, recs: seq<FreeRecord>, es: seq<Event>)
    requires Inv(z) && Enabled(z, ScanFree(recs)) && Stamped(z, ScanFree(recs))
    requires Legal(Apply(z, ScanFree(recs)), es, Stamped) && AllBetween(es)
    requires Run(Apply(z, ScanFree(recs)), es, Stamped).phase.Built?
    ensures var z' := Apply(Run(Apply(z, ScanFree(recs)), es, Stamped), BatchApplied);
      && z'.d.free.Keys !! Keys(recs)
      && z'.bits !! Listed(recs)
      && ZoneDiscipline.Clean(z')
      && z'.bits == ZoneDiscipline.Taken(z') + Live(Extents(z'.d.free)) == Load(z'.d)
  {
    var z0 := Apply(z, ScanFree(recs));
    StepKeeps(z, ScanFree(recs));
    ListsAllKeys(recs, z.d.free);
    BetweenRun(z0, es, Keys(recs), ZoneDiscipline.Taken(z));
    var z1 := Run(z0, es, Stamped);
    StepKeeps(z1, BatchApplied);
    BatchExact(z1);
    AfterBatch(Apply(z1, BatchApplied));
    ListedCleared(z, recs, z1);
  }

  lemma ListedCleared(z: Zone, recs: seq<FreeRecord>, z1: Zone)
    requires Inv(z) && Lists(recs, z.d.free) && z1.phase.Built? && UnderWay(z1, Keys(recs), ZoneDiscipline.Taken(z))
    ensures ZoneDiscipline.Taken(z1) + Live(Extents(z1.d.free - z1.phase.keys)) !! Listed(recs)
  {
    var taken, free := ZoneDiscipline.Taken(z), z1.d.free - z1.phase.keys;
    assert Listed(recs) !! taken by {
      forall i | 0 <= i < |recs| ensures Units(recs[i].off, recs[i].len) !! taken { ListedOnDisk(recs, z.d.free, i); }
    }
    forall u | u in Live(Extents(free)) ensures u in taken {
      var o :| o in free && u in Units(o, Extents(free)[o]);
      assert Units(o, z1.d.free[o].len) <= taken;
    }
  }

  /** At rest, with the watermark of the snapshot and every claim held by it. */
  lemma AfterBatch(z: Zone)
    requires Inv(z) && z.phase.Idle? && Held(z) == z.pending && z.compactTs == z.d.zone.compactTs
    ensures z.bits == ZoneDiscipline.Taken(z) + Live(Extents(z.d.free)) == Load(z.d) && ZoneDiscipline.Clean(z)
  {
    NoneLeftIff(z);
    forall o | o in z.d.free ensures Units(o, z.d.free[o].len) <= z.bits { LiveOf(Extents(z.d.free), o); }
  }

  // ---- Undisturbed ----------------------------------------------------

  /** From any zone at rest a compaction can go through, and undisturbed it reclaims
      every freed unit, removes every free record and leaves the zone clean. */
  lemma CompactionReclaims(z: Zone, recs: seq<FreeRecord>)
    requires Inv(z) && z.phase.Idle?
    requires recs != [] && Lists(recs, z.d.free)
    ensures Enabled(z, ScanFree(recs)) && Stamped(z, ScanFree(recs))
    ensures var z0, es := Apply(z, ScanFree(recs)), [MergeFree, Anchor(|z.d.journal|), BuildSnapshot];
      && Legal(z0, es, Stamped) && Run(z0, es, Stamped).phase.Built?
      && Reclaimed(z, Apply(Run(z0, es, Stamped), BatchApplied))
  {
    var z0, es := Apply(z, ScanFree(recs)), [MergeFree, Anchor(|z.d.journal|), BuildSnapshot];
    Undisturbed(z0);
    ReclaimsListed(z, recs, es);
    ListsAllKeys(recs, z.d.free);
    NothingElse(z, Apply(Run(z0, es, Stamped), BatchApplied), Keys(recs));
  }

  lemma NothingElse(z: Zone, z': Zone, keys: set<nat>)
    requires z'.d.busy == z.d.busy && z'.pending == z.pending && z'.d.free == z.d.free - keys && keys == z.d.free.Keys
    requires ZoneDiscipline.Clean(z') && z'.bits == ZoneDiscipline.Taken(z') + Live(Extents(z'.d.free)) == Load(z'.d)
    ensures Reclaimed(z, z')
  {
    assert z'.d.free == map[];
    assert Extents(map[]) == map[] && Live(map[]) == {};
  }

  lemma Undisturbed(z: Zone)
    requires z.phase.Scanned?
    ensures var es := [MergeFree, Anchor(|z.d.journal|), BuildSnapshot];
      && Legal(z, es, Stamped)
      && Run(z, es, Stamped).d == z.d && Run(z, es, Stamped).pending == z.pending
      && Run(z, es, Stamped).phase.Built? && Run(z, es, Stamped).phase.keys == Keys(z.phase.recs)
  {
    Three(z, MergeFree, Anchor(|z.d.journal|), BuildSnapshot, Stamped);
  }

  ghost predicate Reclaimed(z: Zone, z': Zone) {
    && z'.d.busy == z.d.busy && z'.d.free == map[]
    && ZoneDiscipline.Clean(z') && z'.bits == ZoneDiscipline.Taken(z) == Load(z'.d)
  }

  lemma Three(z: Zone, a: Event, b: Event, c: Event, ok: (Zone, Event) -> bool)
    requires Enabled(z, a) && ok(z, a) && Enabled(Apply(z, a), b) && ok(Apply(z, a), b)
    requires var z2 := Apply(Apply(z, a), b); Enabled(z2, c) && ok(z2, c)
    ensures Legal(z, [a, b, c], ok) && Run(z, [a, b, c], ok) == Apply(Apply(Apply(z, a), b), c)
  {
    assert [a, b, c][1..] == [b, c] && [b, c][1..] == [c] && [c][1..] == [];
    var z1 := Apply(z, a);
    var z2 := Apply(z1, b);
    assert Legal(Apply(z2, c), [], ok) && Run(Apply(z2, c), [], ok) == Apply(z2, c);
    assert Legal(z2, [c], ok) && Run(z2, [c], ok) == Apply(z2, c);
    assert Legal(z1, [b, c], ok) && Run(z1, [b, c], ok) == Apply(z2, c);
  }
}
