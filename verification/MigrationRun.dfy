/** A bucket range moving between groups while chunks are written and read.

A put in a migrating range writes the new group and then the old one, and
reports the old leg's failure to nobody; a put routed before the migration began
writes the old group only; a read tries the new group and then the old one; the
copy reads a page of the old group and writes its items to the new group one by
one, over whatever is there; a copy may be started over.
`last` records, for the proof, the value of the last put of each chunk.  Chunks
are identified by their place in the key order. */
module MigrationRun {
  import opened Options
  import opened Paging

  datatype Task<V> =
    | Scanning(cursor: int)
    | Paging(cursor: int, items: seq<(nat, V)>, more: bool, limit: int)
    | Finished

  /** `dual` is the binding state: true in Copying and Cutover. */
  datatype State<V> = State(
    olds: map<nat, V>, news: map<nat, V>, dual: bool, inFlight: map<nat, V>, task: Task<V>, last: map<nat, V>)

  datatype Event<V> =
    | PutNew(k: nat, v: V)
    | PutOld(k: nat)
    | PutOldFails(k: nat)
    | PutStale(k: nat, v: V)
    | ScanPage(items: seq<(nat, V)>, more: bool)
    | CopyOne
    | EndPage
    | Restart
    | LeaveDual
    | DeleteOld(k: nat)

  /** `get_chunk`, as one step. */
  function Read<V>(s: State<V>, k: nat): Option<V> {
    if k in s.news then Some(s.news[k])
    else if s.dual && k in s.olds then Some(s.olds[k])
    else None
  }

  ghost predicate ReadsLast<V>(s: State<V>) {
    forall k :: Read(s, k) == if k in s.last then Some(s.last[k]) else None
  }

  /** The copy is past this key. */
  predicate Passed<V>(task: Task<V>, k: nat) {
    task.Finished? || k <= task.cursor
  }

  predicate Below(a: nat, b: nat) {
    a < b
  }

  function Ahead<V>(olds: map<nat, V>, cursor: int): set<nat> {
    set k | k in olds && k > cursor
  }

  // ---- The code's steps -----------------------------------------------

  ghost predicate Enabled<V>(s: State<V>, e: Event<V>) {
    match e
    case PutNew(k, _) => k !in s.inFlight
    case PutOld(k) => k in s.inFlight
    case PutOldFails(k) => k in s.inFlight
    case PutStale(k, _) => k !in s.inFlight
    case ScanPage(items, more) => s.task.Scanning? && IsPage(items, more, s.olds, Ahead(s.olds, s.task.cursor), Below)
    case CopyOne => s.task.Paging? && s.task.items != []
    case EndPage => s.task.Paging? && s.task.items == []
    case Restart => true
    case LeaveDual => s.dual
    case DeleteOld(_) => s.task.Finished?
  }

  ghost function Apply<V>(s: State<V>, e: Event<V>): State<V>
    requires Enabled(s, e)
  {
    match e
    case PutNew(k, v) =>
      s.(news := s.news[k := v], last := s.last[k := v], inFlight := if s.dual then s.inFlight[k := v] else s.inFlight)
    case PutOld(k) => s.(olds := s.olds[k := s.inFlight[k]], inFlight := s.inFlight - {k})
    case PutOldFails(k) => s.(inFlight := s.inFlight - {k})
    case PutStale(k, v) => s.(olds := s.olds[k := v], last := s.last[k := v])
    case ScanPage(items, more) =>
      if items == [] then s.(task := Finished)
      else s.(task := Paging(s.task.cursor, items, more, items[|items| - 1].0))
    case CopyOne =>
      var (k, v) := s.task.items[0];
      s.(news := s.news[k := v],
         task := Paging(k, s.task.items[1..], s.task.more, s.task.limit))
    case EndPage => s.(task := if s.task.more then Scanning(s.task.cursor) else Finished)
    case Restart => s.(task := Scanning(-1))
    case LeaveDual => s.(dual := false)
    case DeleteOld(k) => s.(olds := s.olds - {k})
  }

  /** What could be checked by reading the groups: an item to be copied is in the new
      group with the same value, or absent there and still so in the old one; the dual
      states are left only when no key of the old group is missing in the new one; a key
      is deleted from the old group only when the new one has it; a stale put finds its
      key absent in the new group, or there with the same value. */
  ghost predicate Fitting<V>(s: State<V>, e: Event<V>)
    requires Enabled(s, e)
  {
    match e
    case CopyOne => SameThere(s, s.task.items[0].0, s.task.items[0].1)
    case LeaveDual => s.olds.Keys <= s.news.Keys
    case DeleteOld(k) => k in s.olds ==> k in s.news
    case PutStale(k, v) => if k in s.news then s.news[k] == v else s.dual
    case _ => true
  }

  ghost predicate SameThere<V>(s: State<V>, k: nat, v: V) {
    if k in s.news then s.news[k] == v else k in s.olds && s.olds[k] == v
  }

  // ---- Invariant ------------------------------------------------------

  ghost predicate Inv<V>(s: State<V>) {
    && (forall k :: k in s.news ==> k in s.last && s.news[k] == s.last[k])
    && (forall k :: k in s.last && k !in s.news ==> s.dual && k in s.olds && s.olds[k] == s.last[k])
    && (forall k :: k in s.inFlight ==> k in s.news && s.news[k] == s.inFlight[k])
    && (forall k :: k in s.olds && k !in s.news ==> k in s.last)
    && (s.task.Paging? ==> forall i :: 0 <= i < |s.task.items| ==> s.task.items[i].0 in s.olds)
  }

  lemma InvReads<V>(s: State<V>)
    requires Inv(s)
    ensures ReadsLast(s)
  {
  }

  // ---- Steps ----------------------------------------------------------

  lemma PutKeeps<V>(s: State<V>, e: Event<V>)
    requires Inv(s) && Enabled(s, e) && Fitting(s, e)
    requires e.PutNew? || e.PutOld? || e.PutOldFails? || e.PutStale?
    ensures Inv(Apply(s, e))
  {
  }

  lemma CopyKeeps<V>(s: State<V>, e: Event<V>)
    requires Inv(s) && Enabled(s, e) && Fitting(s, e) && (e.ScanPage? || e.CopyOne?)
    ensures Inv(Apply(s, e))
  {
  }

  lemma StepKeeps<V>(s: State<V>, e: Event<V>)
    requires Inv(s) && Enabled(s, e) && Fitting(s, e)
    ensures Inv(Apply(s, e))
  {
    if e.PutNew? || e.PutOld? || e.PutOldFails? || e.PutStale? {
      PutKeeps(s, e);
    } else if e.ScanPage? || e.CopyOne? {
      CopyKeeps(s, e);
    }
  }

  // ---- Exactly when reads are right -----------------------------------

  /** A copied item leaves reads right exactly when the new group has it with the same
      value, or lacks its key while the old one still has that value. */
  lemma CopyIsRightIff<V>(s: State<V>)
    requires Inv(s) && Enabled(s, CopyOne)
    ensures ReadsLast(Apply(s, CopyOne)) <==> Fitting(s, CopyOne)
  {
    if Fitting(s, CopyOne) {
      StepKeeps(s, CopyOne);
      InvReads(Apply(s, CopyOne));
    } else {
      assert Read(Apply(s, CopyOne), s.task.items[0].0) == Some(s.task.items[0].1);
    }
  }

  /** Leaving the dual states leaves reads right exactly when every key of the old
      group is in the new one. */
  lemma LeaveIsRightIff<V>(s: State<V>)
    requires Inv(s) && Enabled(s, LeaveDual)
    ensures ReadsLast(Apply(s, LeaveDual)) <==> Fitting(s, LeaveDual)
  {
    if Fitting(s, LeaveDual) {
      StepKeeps(s, LeaveDual);
      InvReads(Apply(s, LeaveDual));
    } else {
      var k :| k in s.olds && k !in s.news;
      assert Read(Apply(s, LeaveDual), k) == None && k in s.last;
    }
  }

  /** A stale put is read exactly when the new group has its key with the same value, or
      lacks its key in the dual states. */
  lemma StaleIsRightIff<V>(s: State<V>, k: nat, v: V)
    requires Inv(s) && Enabled(s, PutStale(k, v))
    ensures ReadsLast(Apply(s, PutStale(k, v))) <==> Fitting(s, PutStale(k, v))
  {
    if Fitting(s, PutStale(k, v)) {
      StepKeeps(s, PutStale(k, v));
      InvReads(Apply(s, PutStale(k, v)));
    } else {
      assert Read(Apply(s, PutStale(k, v)), k) != Some(v);
    }
  }

  /** A deleted key leaves reads right exactly when the new group has it. */
  lemma DeleteIsRightIff<V>(s: State<V>, k: nat)
    requires Inv(s) && Enabled(s, DeleteOld(k))
    ensures ReadsLast(Apply(s, DeleteOld(k))) <==> Fitting(s, DeleteOld(k))
  {
    if Fitting(s, DeleteOld(k)) {
      StepKeeps(s, DeleteOld(k));
      InvReads(Apply(s, DeleteOld(k)));
    } else {
      assert Read(Apply(s, DeleteOld(k)), k) == None && k in s.last;
    }
  }

  lemma StepIsRightIff<V>(s: State<V>, e: Event<V>)
    requires Inv(s) && Enabled(s, e)
    ensures ReadsLast(Apply(s, e)) <==> Fitting(s, e)
  {
    match e
    case CopyOne => CopyIsRightIff(s);
    case LeaveDual => LeaveIsRightIff(s);
    case DeleteOld(k) => DeleteIsRightIff(s, k);
    case PutStale(k, v) => StaleIsRightIff(s, k, v);
    case _ =>
      StepKeeps(s, e);
      InvReads(Apply(s, e));
  }

  ghost predicate Legal<V>(s: State<V>, es: seq<Event<V>>)
    decreases |es|
  {
    es == [] || (Enabled(s, es[0]) && Legal(Apply(s, es[0]), es[1..]))
  }

  ghost function Run<V>(s: State<V>, es: seq<Event<V>>): State<V>
    requires Legal(s, es)
    decreases |es|
  {
    if es == [] then s else Run(Apply(s, es[0]), es[1..])
  }

  /** A read returns the last value put before and after every step of the run. */
  ghost predicate RightThroughout<V>(s: State<V>, es: seq<Event<V>>)
    requires Legal(s, es)
    decreases |es|
  {
    ReadsLast(s) && (es == [] || RightThroughout(Apply(s, es[0]), es[1..]))
  }

  /** Every copy, stale put, delete and leaving of the dual states meets its check. */
  ghost predicate AllFitting<V>(s: State<V>, es: seq<Event<V>>)
    requires Legal(s, es)
    decreases |es|
  {
    es == [] || (Fitting(s, es[0]) && AllFitting(Apply(s, es[0]), es[1..]))
  }

  /** Before the migration: everything is in the old group. */
  ghost predicate Start<V>(s: State<V>) {
    s.news == map[] && s.olds == s.last && s.dual && s.inFlight == map[] && s.task == Scanning(-1)
  }

  lemma {:induction false} RightIffFitting<V>(s: State<V>, es: seq<Event<V>>)
    requires Inv(s) && Legal(s, es)
    ensures RightThroughout(s, es) <==> AllFitting(s, es)
    decreases |es|
  {
    InvReads(s);
    if es != [] {
      StepIsRightIff(s, es[0]);
      if Fitting(s, es[0]) {
        StepKeeps(s, es[0]);
        RightIffFitting(Apply(s, es[0]), es[1..]);
      } else {
        NotRight(Apply(s, es[0]), es[1..]);
      }
    }
  }

  lemma NotRight<V>(s: State<V>, es: seq<Event<V>>)
    requires Legal(s, es) && !ReadsLast(s)
    ensures !RightThroughout(s, es)
  {
  }

  /** Through every run of a migration, with puts, stale puts, failing old legs, copies
      started over and cleanup interleaved in any way, reads always return the last
      value put exactly when every copy, stale put, delete and leaving of the dual
      states meets its check. */
  lemma ReadsFollowPutsIff<V>(s: State<V>, es: seq<Event<V>>)
    requires Start(s) && Legal(s, es)
    ensures RightThroughout(s, es) <==> AllFitting(s, es)
  {
    RightIffFitting(s, es);
  }

  // ---- The copy is through before the dual states end -------------------

  /** No key missing in the new group is behind the copy, and those ahead of it are in
      the page under way or beyond it. */
  ghost predicate Tracked<V>(s: State<V>) {
    && (forall k :: k in s.olds && k !in s.news ==> !Passed(s.task, k))
    && (s.task.Paging? ==> PageInv(s))
  }

  ghost predicate PageInv<V>(s: State<V>)
    requires s.task.Paging?
  {
    var t := s.task;
    && (forall i :: 0 <= i < |t.items| ==> t.items[i].0 > t.cursor)
    && (forall i, j :: 0 <= i < j < |t.items| ==> t.items[i].0 < t.items[j].0)
    && (forall k :: k in s.olds && k !in s.news && k > t.cursor ==> Listed(t.items, k) || (t.more && k > t.limit))
    && (if t.items == [] then t.more ==> t.cursor == t.limit else t.more ==> t.items[|t.items| - 1].0 == t.limit)
  }

  lemma ScanTracked<V>(s: State<V>, e: Event<V>)
    requires Tracked(s) && Enabled(s, e) && e.ScanPage?
    ensures Tracked(Apply(s, e))
  {
    forall k | k in s.olds && k > s.task.cursor ensures k in Ahead(s.olds, s.task.cursor) {}
    if e.items != [] { ScannedPage(s, e); }
  }

  lemma ScannedPage<V>(s: State<V>, e: Event<V>)
    requires Enabled(s, e) && e.ScanPage? && e.items != []
    ensures PageInv(Apply(s, e))
  {
    forall k | k in s.olds && k > s.task.cursor
      ensures Listed(e.items, k) || (e.more && k > e.items[|e.items| - 1].0)
    {
      assert k in Ahead(s.olds, s.task.cursor);
    }
    forall i, j | 0 <= i < j < |e.items| ensures e.items[i].0 < e.items[j].0 {
      assert Below(e.items[i].0, e.items[j].0);
    }
  }

  lemma CopyTracked<V>(s: State<V>)
    requires Tracked(s) && Enabled(s, CopyOne)
    ensures Tracked(Apply(s, CopyOne))
  {
    var t, k := s.task, s.task.items[0].0;
    forall j | j in s.olds && j != k && j !in s.news
      ensures j > k && (Listed(t.items[1..], j) || (t.more && j > t.limit))
    {
      StillAhead(s, j);
    }
  }

  /** The copy goes in key order: what is not yet copied lies ahead. */
  lemma StillAhead<V>(s: State<V>, j: nat)
    requires Tracked(s) && s.task.Paging? && s.task.items != []
    requires j in s.olds && j !in s.news && j != s.task.items[0].0
    ensures j > s.task.items[0].0 && (Listed(s.task.items[1..], j) || (s.task.more && j > s.task.limit))
  {
    var t := s.task;
    assert j > t.cursor;
    if Listed(t.items, j) {
      var i :| 0 <= i < |t.items| && t.items[i].0 == j;
      assert t.items[0].0 < t.items[i].0;
      assert t.items[1..][i - 1].0 == j;
    } else {
      assert |t.items| > 1 ==> t.items[0].0 < t.items[|t.items| - 1].0;
    }
  }

  lemma StepTracks<V>(s: State<V>, e: Event<V>)
    requires Inv(s) && Tracked(s) && Enabled(s, e) && !e.PutStale?
    ensures Tracked(Apply(s, e))
  {
    match e
    case ScanPage(_, _) => ScanTracked(s, e);
    case CopyOne => CopyTracked(s);
    case _ =>
  }

  /** The dual states last until the copy is finished, and no put is stale. */
  ghost predicate Punctual<V>(s: State<V>, es: seq<Event<V>>)
    requires Legal(s, es)
    decreases |es|
  {
    es == [] || (
      && !es[0].PutStale? && (es[0].LeaveDual? ==> s.task.Finished?)
      && Punctual(Apply(s, es[0]), es[1..]))
  }

  ghost predicate CopiesFit<V>(s: State<V>, es: seq<Event<V>>)
    requires Legal(s, es)
    decreases |es|
  {
    es == [] || ((es[0].CopyOne? ==> Fitting(s, es[0])) && CopiesFit(Apply(s, es[0]), es[1..]))
  }

  /** A finished copy has left no key of the old group behind: the dual states may be
      left, and any key deleted. */
  lemma FinishedMayLeave<V>(s: State<V>, e: Event<V>)
    requires Tracked(s) && Enabled(s, e) && (e.LeaveDual? || e.DeleteOld?) && s.task.Finished?
    ensures Fitting(s, e)
  {
  }

  lemma {:induction false} CopiesDecide<V>(s: State<V>, es: seq<Event<V>>)
    requires Inv(s) && Tracked(s) && Legal(s, es) && Punctual(s, es)
    ensures AllFitting(s, es) <==> CopiesFit(s, es)
    decreases |es|
  {
    if es != [] {
      if es[0].LeaveDual? || es[0].DeleteOld? { FinishedMayLeave(s, es[0]); }
      if Fitting(s, es[0]) {
        StepKeeps(s, es[0]);
        StepTracks(s, es[0]);
        CopiesDecide(Apply(s, es[0]), es[1..]);
      }
    }
  }

  /** When the dual states last until the copy is finished and no put is stale, reads
      always return the last value put exactly when every copied item meets its
      check. */
  lemma ReadsFollowPuts<V>(s: State<V>, es: seq<Event<V>>)
    requires Start(s) && Legal(s, es) && Punctual(s, es)
    ensures RightThroughout(s, es) <==> CopiesFit(s, es)
  {
    ReadsFollowPutsIff(s, es);
    CopiesDecide(s, es);
  }

  // ---- A schedule that needs no check ---------------------------------

  /** No put starts on a key between its page and its copy, no page lists a key of a put
      half done, old legs succeed, no put is stale, and a copy is started over only
      in the dual states. */
  ghost predicate Scheduled<V>(s: State<V>, e: Event<V>)
    requires Enabled(s, e)
  {
    match e
    case PutNew(k, _) => s.task.Paging? ==> !Listed(s.task.items, k)
    case ScanPage(items, _) => forall k :: Listed(items, k) ==> k !in s.inFlight
    case PutOldFails(_) => false
    case PutStale(_, _) => false
    case Restart => s.dual
    case LeaveDual => s.task.Finished?
    case _ => true
  }

  ghost predicate AllScheduled<V>(s: State<V>, es: seq<Event<V>>)
    requires Legal(s, es)
    decreases |es|
  {
    es == [] || (Scheduled(s, es[0]) && AllScheduled(Apply(s, es[0]), es[1..]))
  }

  /** While the copy runs the groups agree on every key no put is working on, and the page
      under way is what the old group holds. */
  ghost predicate Agreed<V>(s: State<V>) {
    && (!s.task.Finished? ==> s.dual)
    && (s.dual ==> forall k :: k in s.olds && k in s.news && k !in s.inFlight ==> s.olds[k] == s.news[k])
    && (s.task.Paging? ==> forall i :: 0 <= i < |s.task.items| ==> Steady(s, s.task.items[i].0, s.task.items[i].1))
  }

  ghost predicate Steady<V>(s: State<V>, k: nat, v: V) {
    k in s.olds && s.olds[k] == v && k !in s.inFlight
  }

  lemma ScheduledFits<V>(s: State<V>, e: Event<V>)
    requires Inv(s) && Tracked(s) && Agreed(s) && Enabled(s, e) && Scheduled(s, e)
    ensures Fitting(s, e)
  {
    if e.LeaveDual? || e.DeleteOld? { FinishedMayLeave(s, e); }
    if e.CopyOne? { assert Steady(s, s.task.items[0].0, s.task.items[0].1); }
  }

  lemma ScheduledAgrees<V>(s: State<V>, e: Event<V>)
    requires Inv(s) && Agreed(s) && Enabled(s, e) && Scheduled(s, e)
    ensures Agreed(Apply(s, e))
  {
    match e
    case ScanPage(items, _) =>
      forall i | 0 <= i < |items| ensures Steady(s, items[i].0, items[i].1) { assert Listed(items, items[i].0); }
    case PutNew(k, _) => KeepsPage(s, e);
    case PutOld(k) => KeepsPage(s, e);
    case _ =>
  }

  lemma KeepsPage<V>(s: State<V>, e: Event<V>)
    requires Agreed(s) && Enabled(s, e) && Scheduled(s, e) && (e.PutNew? || e.PutOld?)
    ensures s.task.Paging? ==>
      forall i :: 0 <= i < |s.task.items| ==> Steady(Apply(s, e), s.task.items[i].0, s.task.items[i].1)
  {
    if s.task.Paging? {
      forall i | 0 <= i < |s.task.items| ensures Steady(Apply(s, e), s.task.items[i].0, s.task.items[i].1) {
        assert Steady(s, s.task.items[i].0, s.task.items[i].1) && Listed(s.task.items, s.task.items[i].0);
      }
    }
  }

  lemma {:induction false} AllScheduledFit<V>(s: State<V>, es: seq<Event<V>>)
    requires Inv(s) && Tracked(s) && Agreed(s) && Legal(s, es) && AllScheduled(s, es)
    ensures AllFitting(s, es)
    decreases |es|
  {
    if es != [] {
      ScheduledFits(s, es[0]);
      StepKeeps(s, es[0]);
      StepTracks(s, es[0]);
      ScheduledAgrees(s, es[0]);
      AllScheduledFit(Apply(s, es[0]), es[1..]);
    }
  }

  /** Under that schedule reads always return the last value put. */
  lemma ScheduleSuffices<V>(s: State<V>, es: seq<Event<V>>)
    requires Start(s) && Legal(s, es) && AllScheduled(s, es)
    ensures RightThroughout(s, es)
  {
    AllScheduledFit(s, es);
    ReadsFollowPutsIff(s, es);
  }

  // ---- A read in two steps --------------------------------------------

  function LastOf<V>(s: State<V>, k: nat): Option<V> {
    if k in s.last then Some(s.last[k]) else None
  }

  /** `r` was the last value put at some point of the run. */
  ghost predicate WasLast<V>(s: State<V>, es: seq<Event<V>>, k: nat, r: Option<V>)
    requires Legal(s, es)
    decreases |es|
  {
    LastOf(s, k) == r || (es != [] && WasLast(Apply(s, es[0]), es[1..], k, r))
  }

  lemma {:induction false} FittingKeeps<V>(s: State<V>, es: seq<Event<V>>)
    requires Inv(s) && Legal(s, es) && AllFitting(s, es)
    ensures Inv(Run(s, es))
    decreases |es|
  {
    if es != [] {
      StepKeeps(s, es[0]);
      FittingKeeps(Apply(s, es[0]), es[1..]);
    }
  }

  /** The old group gains no value but one that was last at some point. */
  lemma {:induction false} OldWasLast<V>(s: State<V>, es: seq<Event<V>>, k: nat)
    requires Inv(s) && Legal(s, es) && AllFitting(s, es) && k in Run(s, es).olds
    ensures var v := Run(s, es).olds[k]; (k in s.olds && s.olds[k] == v) || WasLast(s, es, k, Some(v))
    decreases |es|
  {
    if es != [] {
      StepKeeps(s, es[0]);
      OldWasLast(Apply(s, es[0]), es[1..], k);
    }
  }

  lemma {:induction false} PutStays<V>(s: State<V>, es: seq<Event<V>>, k: nat)
    requires Legal(s, es) && k in s.last
    ensures !WasLast(s, es, k, None)
    decreases |es|
  {
    if es != [] { PutStays(Apply(s, es[0]), es[1..], k); }
  }

  /** Whether the old group has the key after the steps, when it had it before or not:
      the last old leg, stale put or cleanup of the key decides. */
  ghost predicate Kept<V>(had: bool, es: seq<Event<V>>, k: nat) {
    if es == [] then had
    else
      match es[|es| - 1]
      case PutOld(j) => j == k || Kept(had, es[..|es| - 1], k)
      case PutStale(j, _) => j == k || Kept(had, es[..|es| - 1], k)
      case DeleteOld(j) => j != k && Kept(had, es[..|es| - 1], k)
      case _ => Kept(had, es[..|es| - 1], k)
  }

  lemma {:induction false} KeptStep<V>(had: bool, es: seq<Event<V>>, k: nat)
    requires es != []
    ensures Kept(had, es, k) == Kept(Kept(had, [es[0]], k), es[1..], k)
  {
    var n := |es| - 1;
    if n == 0 {
      assert es == [es[0]] && es[1..] == [];
    } else {
      KeptStep(had, es[..n], k);
      assert es[1..][..n - 1] == es[..n][1..] && es[..n][0] == es[0];
    }
  }

  lemma {:induction false} OldIsKept<V>(s: State<V>, es: seq<Event<V>>, k: nat)
    requires Legal(s, es)
    ensures k in Run(s, es).olds <==> Kept(k in s.olds, es, k)
    decreases |es|
  {
    if es != [] {
      OldIsKept(Apply(s, es[0]), es[1..], k);
      KeptStep(k in s.olds, es, k);
      assert [es[0]][..0] == [];
    }
  }

  /** A read that misses the new group and then looks into the old one, with `during`
      in between, returns a value that was last at some point of the read exactly when
      nothing had been put, or the last old leg, stale put or cleanup of the key in
      between was no cleanup. */
  lemma SlowReadIsRightIff<V>(start: State<V>, before: seq<Event<V>>, during: seq<Event<V>>, k: nat)
    requires Start(start) && Legal(start, before) && AllFitting(start, before)
    requires var s := Run(start, before);
      s.dual && k !in s.news && Legal(s, during) && AllFitting(s, during)
    ensures var s := Run(start, before);
      var olds := Run(s, during).olds;
      WasLast(s, during, k, if k in olds then Some(olds[k]) else None) <==> Kept(true, during, k) || k !in s.last
  {
    FittingKeeps(start, before);
    var s := Run(start, before);
    OldIsKept(s, during, k);
    if k in Run(s, during).olds { OldWasLast(s, during, k); }
    if k in s.last { PutStays(s, during, k); }
  }

  // ---- Runs that lose a put -------------------------------------------

  lemma {:induction false} Then<V>(s: State<V>, es: seq<Event<V>>, e: Event<V>) returns (es': seq<Event<V>>)
    requires Legal(s, es) && Enabled(Run(s, es), e)
    ensures es' == es + [e] && Legal(s, es') && Run(s, es') == Apply(Run(s, es), e)
    ensures AllFitting(s, es) && Fitting(Run(s, es), e) ==> AllFitting(s, es')
    decreases |es|
  {
    es' := es + [e];
    if es == [] {
      assert [e][1..] == [];
    } else {
      var rest := Then(Apply(s, es[0]), es[1..], e);
      assert es'[1..] == rest;
    }
  }

  const Example := State(map[0 := 10], map[], true, map[], Scanning(-1), map[0 := 10])

  lemma OnePage(s: State<int>)
    requires s.olds == map[0 := 10] && s.task == Scanning(-1)
    ensures Enabled(s, ScanPage([(0, 10)], false))
  {
    assert Listed([(0, 10)], 0) by { assert [(0, 10)][0].0 == 0; }
  }

  /** A put between the page read and the copy is overwritten by the old value. */
  lemma PutDuringCopyIsLost() returns (es: seq<Event<int>>)
    ensures Start(Example) && Legal(Example, es)
    ensures var s := Run(Example, es); s.last == map[0 := 20] && Read(s, 0) == Some(10)
  {
    OnePage(Example);
    es := Then(Example, [], ScanPage([(0, 10)], false));
    es := Then(Example, es, PutNew(0, 20));
    es := Then(Example, es, PutOld(0));
    es := Then(Example, es, CopyOne);
  }

  /** So is a put whose old leg failed before its key was copied. */
  lemma FailedOldLegIsLost() returns (es: seq<Event<int>>)
    ensures Start(Example) && Legal(Example, es)
    ensures var s := Run(Example, es); s.last == map[0 := 20] && Read(s, 0) == Some(10)
  {
    es := Then(Example, [], PutNew(0, 20));
    es := Then(Example, es, PutOldFails(0));
    OnePage(Run(Example, es));
    es := Then(Example, es, ScanPage([(0, 10)], false));
    es := Then(Example, es, CopyOne);
  }

  /** So is a put that was routed before the migration began and comes between the page
      read and the copy. */
  lemma StalePutIsLost() returns (es: seq<Event<int>>)
    ensures Start(Example) && Legal(Example, es)
    ensures var s := Run(Example, es); s.last == map[0 := 20] && Read(s, 0) == Some(10)
  {
    OnePage(Example);
    es := Then(Example, [], ScanPage([(0, 10)], false));
    es := Then(Example, es, PutStale(0, 20));
    es := Then(Example, es, CopyOne);
  }

  /** A read misses the new group, the copy and the cleanup run, and the old group has
      nothing left. */
  lemma SlowReadMisses() returns (during: seq<Event<int>>)
    ensures Start(Example) && 0 !in Example.news && Legal(Example, during) && AllFitting(Example, during)
    ensures 0 !in Run(Example, during).olds && !WasLast(Example, during, 0, None)
  {
    OnePage(Example);
    during := Then(Example, [], ScanPage([(0, 10)], false));
    during := Then(Example, during, CopyOne);
    during := Then(Example, during, EndPage);
    during := Then(Example, during, DeleteOld(0));
    PutStays(Example, during, 0);
  }
}
