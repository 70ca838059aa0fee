/** The per-chunk lock table, its reaper and the payload cache that shares it.

Callers take a reference to a chunk's mutex, wait for it, may give up, and
once inside read the record from the cache or the store, put a new record and
refresh the cache; a put that reports an error may have been applied.  The
reaper removes any table entry whose mutex nobody else references; the cache
may drop any entry at any time.  Every step of every caller may interleave with
any other. */
module ChunkLocks {

  datatype Hint = Cache | NoCache

  /** How far a caller inside the lock has got. */
  datatype Stage<C> =
    | Entered            // lock held, nothing read yet
    | Creating           // existence check passed
    | Fetched(chunk: C)  // read from the store, not yet cached
    | Ready(chunk: C)    // the guard's record
    | Stored(chunk: C)   // put done, cache not yet refreshed

  datatype Caller<C> =
    | Waiting(id: nat, mutex: nat, hint: Hint)
    | Holding(id: nat, mutex: nat, hint: Hint, stage: Stage<C>)

  datatype State<C> = State(
    locks: map<nat, nat>, callers: map<nat, Caller<C>>, nextMutex: nat,
    cache: map<nat, C>, store: map<nat, C>, minted: map<nat, C>)

  datatype Event<C> =
    | GetLock(t: nat, id: nat, hint: Hint)
    | Lock(t: nat)
    | GiveUp(t: nat)
    | CheckAbsent(t: nat)
    | CacheHit(t: nat)
    | Fetch(t: nat)
    | Fill(t: nat)
    | Put(t: nat, chunk: C)
    | PutFails(t: nat)
    | PutLost(t: nat, chunk: C)  // applied, the answer was lost
    | Refresh(t: nat)
    | Drop(t: nat)
    | Reap(id: nat)
    | Evict(id: nat)
    | AutoPut(id: nat, chunk: C)
    | AutoPopulate(id: nat)

  // ---- The code's steps -----------------------------------------------

  predicate At<C>(s: State<C>, t: nat) {
    t in s.callers && s.callers[t].Holding?
  }

  ghost predicate Locked<C>(s: State<C>, m: nat) {
    exists t :: At(s, t) && s.callers[t].mutex == m
  }

  /** Some caller holds a reference to the mutex. */
  ghost predicate Referenced<C>(s: State<C>, m: nat) {
    exists t :: t in s.callers && s.callers[t].mutex == m
  }

  ghost predicate Enabled<C>(s: State<C>, e: Event<C>) {
    match e
    case GetLock(t, _, _) => t !in s.callers
    case Lock(t) => t in s.callers && s.callers[t].Waiting? && !Locked(s, s.callers[t].mutex)
    case GiveUp(t) => t in s.callers && s.callers[t].Waiting?
    case CheckAbsent(t) => At(s, t) && s.callers[t].stage.Entered? && s.callers[t].id !in s.store
    case CacheHit(t) => At(s, t) && s.callers[t].stage.Entered? && s.callers[t].id in s.cache
    case Fetch(t) =>
      At(s, t) && s.callers[t].stage.Entered? && s.callers[t].id !in s.cache && s.callers[t].id in s.store
    case Fill(t) => At(s, t) && s.callers[t].stage.Fetched?
    case Put(t, _) => At(s, t) && (s.callers[t].stage.Ready? || s.callers[t].stage.Creating?)
    case PutFails(t) => At(s, t) && (s.callers[t].stage.Ready? || s.callers[t].stage.Creating?)
    case PutLost(t, _) => At(s, t) && (s.callers[t].stage.Ready? || s.callers[t].stage.Creating?)
    case Refresh(t) => At(s, t) && s.callers[t].stage.Stored?
    case Drop(t) => At(s, t) && !s.callers[t].stage.Stored?
    case Reap(id) => id in s.locks && !Referenced(s, s.locks[id])
    case Evict(id) => id in s.cache
    case AutoPut(id, _) => id !in s.minted
    case AutoPopulate(id) => id in s.minted
  }

  function Stay<C>(s: State<C>, t: nat, stage: Stage<C>): map<nat, Caller<C>>
    requires At(s, t)
  {
    s.callers[t := s.callers[t].(stage := stage)]
  }

  function Leave<C>(s: State<C>, t: nat): State<C>
    requires At(s, t)
  {
    s.(callers := s.callers - {t})
  }

  ghost function Apply<C>(s: State<C>, e: Event<C>): State<C>
    requires Enabled(s, e)
  {
    match e
    case GetLock(t, id, hint) =>
      if id in s.locks then s.(callers := s.callers[t := Waiting(id, s.locks[id], hint)])
      else s.(callers := s.callers[t := Waiting(id, s.nextMutex, hint)],
              locks := s.locks[id := s.nextMutex], nextMutex := s.nextMutex + 1)
    case Lock(t) =>
      var c := s.callers[t];
      s.(callers := s.callers[t := Holding(c.id, c.mutex, c.hint, Entered)])
    case GiveUp(t) => s.(callers := s.callers - {t})
    case CheckAbsent(t) => s.(callers := Stay(s, t, Creating))
    case CacheHit(t) => s.(callers := Stay(s, t, Ready(s.cache[s.callers[t].id])))
    case Fetch(t) => s.(callers := Stay(s, t, Fetched(s.store[s.callers[t].id])))
    case Fill(t) =>
      var c := s.callers[t];
      s.(callers := Stay(s, t, Ready(c.stage.chunk)),
         cache := if c.hint.Cache? then s.cache[c.id := c.stage.chunk] else s.cache)
    case Put(t, chunk) =>
      s.(callers := Stay(s, t, Stored(chunk)), store := s.store[s.callers[t].id := chunk])
    case PutFails(t) => Leave(s, t)
    case PutLost(t, chunk) => Leave(s, t).(store := s.store[s.callers[t].id := chunk])
    case Refresh(t) =>
      var c := s.callers[t];
      s.(callers := Stay(s, t, Ready(c.stage.chunk)),
         cache := if c.hint.Cache? then s.cache[c.id := c.stage.chunk] else s.cache)
    case Drop(t) => Leave(s, t)
    case Reap(id) => s.(locks := s.locks - {id})
    case Evict(id) => s.(cache := s.cache - {id})
    case AutoPut(id, chunk) => s.(store := s.store[id := chunk], minted := s.minted[id := chunk])
    case AutoPopulate(id) => s.(cache := s.cache[id := s.minted[id]], minted := s.minted - {id})
  }

  ghost predicate Legal<C>(s: State<C>, es: seq<Event<C>>, ok: (State<C>, Event<C>) -> bool)
    decreases |es|
  {
    es == [] || (Enabled(s, es[0]) && ok(s, es[0]) && Legal(Apply(s, es[0]), es[1..], ok))
  }

  ghost function Run<C>(s: State<C>, es: seq<Event<C>>, ok: (State<C>, Event<C>) -> bool): State<C>
    requires Legal(s, es, ok)
    decreases |es|
  {
    if es == [] then s else Run(Apply(s, es[0]), es[1..], ok)
  }

  function Start<C>(store: map<nat, C>): State<C> {
    State(map[], map[], 0, map[], store, map[])
  }

  // ---- At most one guard per chunk ------------------------------------

  /** Whoever waits for or holds a chunk's mutex uses the one in the table. */
  ghost predicate LockInv<C>(s: State<C>) {
    && (forall t :: t in s.callers ==>
          s.callers[t].id in s.locks && s.locks[s.callers[t].id] == s.callers[t].mutex)
    && (forall t, u :: At(s, t) && At(s, u) && t != u ==> s.callers[t].mutex != s.callers[u].mutex)
  }

  ghost predicate OneHolder<C>(s: State<C>) {
    forall t, u :: At(s, t) && At(s, u) && s.callers[t].id == s.callers[u].id ==> t == u
  }

  /** The reaper cannot take an entry that someone waits for or holds; it takes the
      entry out and touches nothing else. */
  lemma ReapedUnused<C>(s: State<C>, id: nat)
    requires LockInv(s) && Enabled(s, Reap(id))
    ensures forall t :: t in s.callers ==> s.callers[t].id != id
    ensures var s' := Apply(s, Reap(id));
      && id !in s'.locks
      && (forall i :: i != id ==> (i in s'.locks <==> i in s.locks) && (i in s.locks ==> s'.locks[i] == s.locks[i]))
      && s'.callers == s.callers && s'.nextMutex == s.nextMutex
      && s'.cache == s.cache && s'.store == s.store && s'.minted == s.minted
  {
  }

  lemma EnterStep<C>(s: State<C>, e: Event<C>)
    requires LockInv(s) && Enabled(s, e) && (e.GetLock? || e.Lock? || e.GiveUp?)
    ensures LockInv(Apply(s, e))
  {
  }

  /** Any other step leaves the callers it does not end on their mutexes. */
  lemma InsideLocks<C>(s: State<C>, e: Event<C>)
    requires LockInv(s) && Enabled(s, e) && !(e.GetLock? || e.Lock? || e.GiveUp?)
    requires e.Reap? ==> forall t :: t in s.callers ==> s.callers[t].id != e.id
    ensures LockInv(Apply(s, e))
  {
    var s' := Apply(s, e);
    forall t | t in s'.callers
      ensures t in s.callers && s'.callers[t].id == s.callers[t].id && s'.callers[t].mutex == s.callers[t].mutex
           && (At(s', t) ==> At(s, t))
    {}
  }

  lemma LockStep<C>(s: State<C>, e: Event<C>)
    requires LockInv(s) && Enabled(s, e)
    ensures LockInv(Apply(s, e))
  {
    if e.GetLock? || e.Lock? || e.GiveUp? {
      EnterStep(s, e);
    } else {
      if e.Reap? { ReapedUnused(s, e.id); }
      InsideLocks(s, e);
    }
  }

  lemma {:induction false} LockRun<C>(s: State<C>, es: seq<Event<C>>, ok: (State<C>, Event<C>) -> bool)
    requires LockInv(s) && Legal(s, es, ok)
    ensures LockInv(Run(s, es, ok))
    decreases |es|
  {
    if es != [] {
      LockStep(s, es[0]);
      LockRun(Apply(s, es[0]), es[1..], ok);
    }
  }

  /** In every interleaving, at most one caller is inside the lock of a chunk. */
  lemma MutualExclusion<C>(store: map<nat, C>, es: seq<Event<C>>, ok: (State<C>, Event<C>) -> bool)
    requires Legal(Start(store), es, ok)
    ensures OneHolder(Run(Start(store), es, ok))
  {
    LockRun(Start(store), es, ok);
    var s := Run(Start(store), es, ok);
    forall t, u | At(s, t) && At(s, u) && s.callers[t].id == s.callers[u].id ensures t == u {
      assert s.callers[t].mutex == s.callers[u].mutex;
    }
  }

  // ---- The cache ------------------------------------------------------

  /** An auto-generated id is new and is used by nobody until its allocation has
      returned. */
  ghost predicate Fresh<C>(s: State<C>, e: Event<C>) {
    match e
    case GetLock(_, id, _) => id !in s.minted
    case AutoPut(id, _) =>
      id !in s.store && id !in s.cache && forall t :: t in s.callers ==> s.callers[t].id != id
    case _ => true
  }

  /** No other record of the chunk is cached. */
  ghost predicate NoOther<C>(s: State<C>, id: nat, chunk: C) {
    id in s.cache ==> s.cache[id] == chunk
  }

  /** A refresh that does not cache, and a put whose answer is lost, leave no other
      record behind in the cache. */
  ghost predicate Fitting<C>(s: State<C>, e: Event<C>)
    requires Enabled(s, e)
  {
    match e
    case Refresh(t) => s.callers[t].hint.Cache? || NoOther(s, s.callers[t].id, s.callers[t].stage.chunk)
    case PutLost(t, chunk) => NoOther(s, s.callers[t].id, chunk)
    case _ => true
  }

  ghost predicate Cached<C>(s: State<C>, e: Event<C>) {
    Enabled(s, e) && Fresh(s, e) && Fitting(s, e)
  }

  ghost predicate Updating<C>(s: State<C>, id: nat) {
    exists t :: At(s, t) && s.callers[t].id == id && s.callers[t].stage.Stored?
  }

  ghost predicate CacheInv<C>(s: State<C>) {
    && LockInv(s)
    && (forall t :: t in s.callers ==> s.callers[t].id !in s.minted)
    && Coherent(s)
    && (forall t :: At(s, t) ==> StageInv(s, s.callers[t].id, s.callers[t].stage))
    && (forall id :: id in s.minted ==> id in s.store && s.store[id] == s.minted[id])
  }

  ghost predicate StageInv<C>(s: State<C>, id: nat, stage: Stage<C>) {
    match stage
    case Entered => true
    case Creating => id !in s.store
    case Fetched(c) => id in s.store && s.store[id] == c
    case Ready(c) => id in s.store && s.store[id] == c
    case Stored(c) => id in s.store && s.store[id] == c
  }

  lemma Alone<C>(s: State<C>, t: nat, u: nat)
    requires LockInv(s) && At(s, t) && At(s, u) && t != u
    ensures s.callers[t].id != s.callers[u].id
  {
  }

  /** Every cached record is the stored one, but for chunks being updated. */
  ghost predicate Coherent<C>(s: State<C>) {
    forall id :: id in s.cache ==> id in s.store && (s.cache[id] == s.store[id] || Updating(s, id))
  }

  /** A step of `t` on its own chunk keeps the other cache entries right. */
  lemma OthersStayCoherent<C>(s: State<C>, s': State<C>, t: nat, mine: nat)
    requires Coherent(s)
    requires forall u :: u in s.callers && u != t ==> u in s'.callers && s'.callers[u] == s.callers[u]
    requires At(s, t) ==> s.callers[t].id == mine || !s.callers[t].stage.Stored?
    requires forall id :: id != mine ==> (id in s'.cache ==> id in s.cache && s'.cache[id] == s.cache[id])
    requires forall id :: id != mine ==> (id in s.store ==> id in s'.store && s'.store[id] == s.store[id])
    requires mine in s'.cache ==> mine in s'.store && (s'.cache[mine] == s'.store[mine] || Updating(s', mine))
    ensures Coherent(s')
  {
    forall id | id in s'.cache && id != mine && s.cache[id] != s.store[id] ensures Updating(s', id) {
      var u :| At(s, u) && s.callers[u].id == id && s.callers[u].stage.Stored?;
      assert At(s', u);
    }
  }

  /** The record of a chunk held by `t`, outside an update, is cached right. */
  lemma MineIsRight<C>(s: State<C>, t: nat)
    requires CacheInv(s) && At(s, t) && !s.callers[t].stage.Stored?
    ensures s.callers[t].id in s.cache ==>
      s.callers[t].id in s.store && s.cache[s.callers[t].id] == s.store[s.callers[t].id]
  {
    forall u | At(s, u) && u != t ensures s.callers[u].id != s.callers[t].id { Alone(s, u, t); }
  }

  lemma SeatStep<C>(s: State<C>, e: Event<C>)
    requires CacheInv(s) && Enabled(s, e) && Fresh(s, e) && (e.GetLock? || e.Lock? || e.GiveUp?)
    ensures CacheInv(Apply(s, e))
  {
    LockStep(s, e);
    var s' := Apply(s, e);
    assert Coherent(s') by {
      forall id | id in s.cache && s.cache[id] != s.store[id] ensures Updating(s', id) {
        var u :| At(s, u) && s.callers[u].id == id && s.callers[u].stage.Stored?;
        assert At(s', u);
      }
    }
    forall u | At(s', u) && u != e.t ensures At(s, u) {}
  }

  lemma InsideStep<C>(s: State<C>, e: Event<C>)
    requires CacheInv(s) && Enabled(s, e) && (e.CheckAbsent? || e.CacheHit? || e.Fetch?)
    ensures CacheInv(Apply(s, e))
  {
    LockStep(s, e);
    MineIsRight(s, e.t);
    var s' := Apply(s, e);
    OthersStayCoherent(s, s', e.t, s.callers[e.t].id);
    forall u | At(s', u) && u != e.t ensures At(s, u) {}
  }

  lemma FillStep<C>(s: State<C>, e: Event<C>)
    requires CacheInv(s) && Enabled(s, e) && e.Fill?
    ensures CacheInv(Apply(s, e))
  {
    LockStep(s, e);
    var s' := Apply(s, e);
    OthersStayCoherent(s, s', e.t, s.callers[e.t].id);
    forall u | At(s', u) && u != e.t ensures At(s, u) {}
  }

  lemma LeaveStep<C>(s: State<C>, e: Event<C>)
    requires CacheInv(s) && Enabled(s, e) && (e.PutFails? || e.Drop?)
    ensures CacheInv(Apply(s, e))
  {
    LockStep(s, e);
    MineIsRight(s, e.t);
    var s' := Apply(s, e);
    OthersStayCoherent(s, s', e.t, s.callers[e.t].id);
    forall u | At(s', u) ensures At(s, u) {}
  }

  lemma UpdateStep<C>(s: State<C>, e: Event<C>)
    requires CacheInv(s) && Enabled(s, e) && Fitting(s, e) && (e.Put? || e.Refresh?)
    ensures CacheInv(Apply(s, e))
  {
    LockStep(s, e);
    var s', mine := Apply(s, e), s.callers[e.t].id;
    assert At(s', e.t);
    assert e.Put? ==> Updating(s', mine);
    OthersStayCoherent(s, s', e.t, mine);
    forall u | At(s', u) && u != e.t ensures StageInv(s', s'.callers[u].id, s'.callers[u].stage) {
      assert At(s, u);
      Alone(s, u, e.t);
    }
  }

  lemma LostStep<C>(s: State<C>, e: Event<C>)
    requires CacheInv(s) && Enabled(s, e) && Fitting(s, e) && e.PutLost?
    ensures CacheInv(Apply(s, e))
  {
    LockStep(s, e);
    var s', mine := Apply(s, e), s.callers[e.t].id;
    OthersStayCoherent(s, s', e.t, mine);
    forall u | At(s', u) ensures StageInv(s', s'.callers[u].id, s'.callers[u].stage) {
      assert At(s, u);
      Alone(s, u, e.t);
    }
  }

  lemma OutsideStep<C>(s: State<C>, e: Event<C>)
    requires CacheInv(s) && Enabled(s, e) && Fresh(s, e)
    requires e.Reap? || e.Evict? || e.AutoPut? || e.AutoPopulate?
    ensures CacheInv(Apply(s, e))
  {
    LockStep(s, e);
    var s' := Apply(s, e);
    assert s'.callers == s.callers;
    forall id | Updating(s, id) ensures Updating(s', id) {
      var u :| At(s, u) && s.callers[u].id == id && s.callers[u].stage.Stored?;
      assert At(s', u);
    }
    forall u | At(s', u) ensures At(s, u) {}
  }

  lemma CacheStep<C>(s: State<C>, e: Event<C>)
    requires CacheInv(s) && Cached(s, e)
    ensures CacheInv(Apply(s, e))
  {
    match e
    case GetLock(_, _, _) => SeatStep(s, e);
    case Lock(_) => SeatStep(s, e);
    case GiveUp(_) => SeatStep(s, e);
    case Put(_, _) => UpdateStep(s, e);
    case Refresh(_) => UpdateStep(s, e);
    case Reap(_) => OutsideStep(s, e);
    case Evict(_) => OutsideStep(s, e);
    case AutoPut(_, _) => OutsideStep(s, e);
    case AutoPopulate(_) => OutsideStep(s, e);
    case Fill(_) => FillStep(s, e);
    case PutFails(_) => LeaveStep(s, e);
    case PutLost(_, _) => LostStep(s, e);
    case Drop(_) => LeaveStep(s, e);
    case _ => InsideStep(s, e);
  }

  lemma {:induction false} CacheRun<C>(s: State<C>, es: seq<Event<C>>)
    requires CacheInv(s) && Legal(s, es, Cached)
    ensures CacheInv(Run(s, es, Cached))
    decreases |es|
  {
    if es != [] {
      CacheStep(s, es[0]);
      CacheRun(Apply(s, es[0]), es[1..]);
    }
  }

  /** Whenever nobody is inside a chunk's lock, its cached record is the stored
      one; and the record a caller is about to replace is the stored one, so no
      update is ever lost. */
  lemma CacheIsCoherent<C>(store: map<nat, C>, es: seq<Event<C>>)
    requires Legal(Start(store), es, Cached)
    ensures var s := Run(Start(store), es, Cached);
      && (forall id :: id in s.cache && (forall t :: At(s, t) ==> s.callers[t].id != id) ==>
            id in s.store && s.cache[id] == s.store[id])
      && (forall t :: At(s, t) && s.callers[t].stage.Ready? ==>
            s.callers[t].id in s.store && s.store[s.callers[t].id] == s.callers[t].stage.chunk)
      && (forall t :: At(s, t) && s.callers[t].stage.Creating? ==> s.callers[t].id !in s.store)
  {
    CacheRun(Start(store), es);
  }

  // ---- Exactly when the cache is right --------------------------------

  /** A refresh leaves the chunk's cache entry right exactly when it caches the
      record or there is no other record to leave behind. */
  lemma RefreshIsRightIff<C>(s: State<C>, t: nat)
    requires Enabled(s, Refresh(t)) && StageInv(s, s.callers[t].id, s.callers[t].stage)
    ensures var s', id := Apply(s, Refresh(t)), s.callers[t].id;
      (id in s'.cache ==> s'.cache[id] == s'.store[id]) <==> Fitting(s, Refresh(t))
  {
  }

  /** The next step leaves the cache right exactly when it fits. */
  lemma StepIsRightIff<C>(s: State<C>, e: Event<C>)
    requires CacheInv(s) && Enabled(s, e) && Fresh(s, e)
    ensures Coherent(Apply(s, e)) <==> Fitting(s, e)
  {
    if Fitting(s, e) {
      CacheStep(s, e);
    } else {
      LeavesStale(s, e);
    }
  }

  lemma LeavesStale<C>(s: State<C>, e: Event<C>)
    requires CacheInv(s) && Enabled(s, e) && !Fitting(s, e)
    ensures !Coherent(Apply(s, e))
  {
    var s', id := Apply(s, e), s.callers[e.t].id;
    forall u | At(s', u) && u != e.t ensures s'.callers[u].id != id {
      assert At(s, u);
      Alone(s, u, e.t);
    }
    assert !Updating(s', id);
    assert id in s'.cache && s'.cache[id] != s'.store[id];
  }

  ghost predicate RightThroughout<C>(s: State<C>, es: seq<Event<C>>)
    requires Legal(s, es, Fresh)
    decreases |es|
  {
    Coherent(s) && (es == [] || RightThroughout(Apply(s, es[0]), es[1..]))
  }

  ghost predicate AllFitting<C>(s: State<C>, es: seq<Event<C>>)
    requires Legal(s, es, Fresh)
    decreases |es|
  {
    es == [] || (Fitting(s, es[0]) && AllFitting(Apply(s, es[0]), es[1..]))
  }

  lemma {:induction false} RightIffFitting<C>(s: State<C>, es: seq<Event<C>>)
    requires CacheInv(s) && Legal(s, es, Fresh)
    ensures RightThroughout(s, es) <==> AllFitting(s, es)
    decreases |es|
  {
    if es != [] {
      StepIsRightIff(s, es[0]);
      if Fitting(s, es[0]) {
        CacheStep(s, es[0]);
        RightIffFitting(Apply(s, es[0]), es[1..]);
      } else {
        NotRight(Apply(s, es[0]), es[1..]);
      }
    }
  }

  lemma NotRight<C>(s: State<C>, es: seq<Event<C>>)
    requires Legal(s, es, Fresh) && !Coherent(s)
    ensures !RightThroughout(s, es)
  {
  }

  /** In every interleaving, whatever the hints and whichever puts fail: cached records
      are the stored ones throughout, but for chunks being updated, exactly when every
      uncached refresh and every put with a lost answer fits. */
  lemma CoherentIff<C>(store: map<nat, C>, es: seq<Event<C>>)
    requires Legal(Start(store), es, Fresh)
    ensures RightThroughout(Start(store), es) <==> AllFitting(Start(store), es)
  {
    RightIffFitting(Start(store), es);
  }

  // ---- Runs that leave a stale entry ----------------------------------

  lemma {:induction false} Then<C>(s: State<C>, es: seq<Event<C>>, e: Event<C>) returns (es': seq<Event<C>>)
    requires Legal(s, es, Fresh) && Enabled(Run(s, es, Fresh), e) && Fresh(Run(s, es, Fresh), e)
    ensures es' == es + [e] && Legal(s, es', Fresh) && Run(s, es', Fresh) == Apply(Run(s, es, Fresh), e)
    decreases |es|
  {
    es' := es + [e];
    if es == [] {
      assert [e][1..] == [];
    } else {
      var rest := Then(Apply(s, es[0]), es[1..], e);
      assert es'[1..] == rest;
    }
  }

  /** `t` alone is inside the lock of chunk 0. */
  ghost predicate Sole(s: State<int>, t: nat, hint: Hint, stage: Stage<int>) {
    s.minted == map[] && s.callers.Keys == {t} && At(s, t) &&
    s.callers[t].id == 0 && s.callers[t].hint == hint && s.callers[t].stage == stage
  }

  /** A caller comes to hold the lock of a chunk nobody uses. */
  lemma EnterLock(s: State<int>, es: seq<Event<int>>, t: nat, hint: Hint) returns (es': seq<Event<int>>)
    requires Legal(s, es, Fresh)
    requires var s' := Run(s, es, Fresh); s'.callers == map[] && s'.minted == map[]
    ensures Legal(s, es', Fresh)
    ensures var s', m := Run(s, es, Fresh), Run(s, es', Fresh);
      Sole(m, t, hint, Entered) && m.cache == s'.cache && m.store == s'.store
  {
    es' := Then(s, es, GetLock(t, 0, hint));
    es' := Then(s, es', Lock(t));
  }

  /** A chunk is read into the cache. */
  lemma ReadIn() returns (es: seq<Event<int>>)
    ensures Legal(Start(map[0 := 10]), es, Fresh)
    ensures var s := Run(Start(map[0 := 10]), es, Fresh);
      s.callers == map[] && s.minted == map[] && s.cache == map[0 := 10] && s.store == map[0 := 10]
  {
    var s := Start(map[0 := 10]);
    es := EnterLock(s, [], 1, Cache);
    es := Then(s, es, Fetch(1));
    es := Then(s, es, Fill(1));
    es := Then(s, es, Drop(1));
  }

  /** Then another caller holds it. */
  lemma ReadThenHold(hint: Hint) returns (es: seq<Event<int>>)
    ensures Legal(Start(map[0 := 10]), es, Fresh)
    ensures var s := Run(Start(map[0 := 10]), es, Fresh);
      Sole(s, 2, hint, Ready(10)) && s.cache == map[0 := 10] && s.store == map[0 := 10]
  {
    es := ReadIn();
    es := EnterLock(Start(map[0 := 10]), es, 2, hint);
    es := Then(Start(map[0 := 10]), es, CacheHit(2));
  }

  /** A caller that asks not to cache updates a chunk another caller has cached. */
  lemma UncachedRefreshIsStale() returns (es: seq<Event<int>>)
    ensures Legal(Start(map[0 := 10]), es, Fresh)
    ensures var s := Run(Start(map[0 := 10]), es, Fresh);
      s.callers == map[] && s.cache == map[0 := 10] && s.store == map[0 := 20]
  {
    es := ReadThenHold(NoCache);
    es := Then(Start(map[0 := 10]), es, Put(2, 20));
    es := Then(Start(map[0 := 10]), es, Refresh(2));
    es := Then(Start(map[0 := 10]), es, Drop(2));
  }

  /** So does any caller whose put was applied but reported an error. */
  lemma LostPutIsStale() returns (es: seq<Event<int>>)
    ensures Legal(Start(map[0 := 10]), es, Fresh)
    ensures var s := Run(Start(map[0 := 10]), es, Fresh);
      s.callers == map[] && s.cache == map[0 := 10] && s.store == map[0 := 20]
  {
    es := ReadThenHold(Cache);
    es := Then(Start(map[0 := 10]), es, PutLost(2, 20));
  }
}
