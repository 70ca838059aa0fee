/** What the lock table promises beyond exclusion: a chunk's mutex is its own, a
chunk nobody is inside can be entered, the reaper can always bring the table
down to the chunks in use, and a chunk locked again after it was reaped gets a
new mutex. */
module LockTable {
  import opened ChunkLocks

  // ---- One mutex per chunk --------------------------------------------

  /** Mutexes are numbered as they are made, and no two chunks have the same one. */
  ghost predicate TableInv<C>(s: State<C>) {
    && LockInv(s)
    && (forall i :: i in s.locks ==> s.locks[i] < s.nextMutex)
    && (forall i, j :: i in s.locks && j in s.locks && i != j ==> s.locks[i] != s.locks[j])
  }

  lemma TableStep<C>(s: State<C>, e: Event<C>)
    requires TableInv(s) && Enabled(s, e)
    ensures TableInv(Apply(s, e)) && Apply(s, e).nextMutex >= s.nextMutex
  {
    LockStep(s, e);
  }

  lemma {:induction false} TableRun<C>(s: State<C>, es: seq<Event<C>>, ok: (State<C>, Event<C>) -> bool)
    requires TableInv(s) && Legal(s, es, ok)
    ensures TableInv(Run(s, es, ok)) && Run(s, es, ok).nextMutex >= s.nextMutex
    decreases |es|
  {
    if es != [] {
      TableStep(s, es[0]);
      TableRun(Apply(s, es[0]), es[1..], ok);
    }
  }

  ghost predicate Inside<C>(s: State<C>, id: nat) {
    exists t :: At(s, t) && s.callers[t].id == id
  }

  ghost predicate Wanted<C>(s: State<C>, id: nat) {
    exists t :: t in s.callers && s.callers[t].id == id
  }

  /** A waiting caller may enter exactly when nobody is inside its chunk: no chunk
      waits for another. */
  lemma EntersIff<C>(s: State<C>, t: nat)
    requires TableInv(s) && t in s.callers && s.callers[t].Waiting?
    ensures Enabled(s, Lock(t)) <==> !Inside(s, s.callers[t].id)
  {
    var c := s.callers[t];
    if Inside(s, c.id) {
      var u :| At(s, u) && s.callers[u].id == c.id;
      assert Locked(s, c.mutex);
    }
    if Locked(s, c.mutex) {
      var u :| At(s, u) && s.callers[u].mutex == c.mutex;
      assert s.callers[u].id == c.id;
    }
  }

  /** An entry may be reaped exactly when nobody waits for the chunk or is inside. */
  lemma ReapableIff<C>(s: State<C>, id: nat)
    requires TableInv(s)
    ensures Enabled(s, Reap(id)) <==> id in s.locks && !Wanted(s, id)
  {
    if id in s.locks && Wanted(s, id) {
      var t :| t in s.callers && s.callers[t].id == id;
      assert Referenced(s, s.locks[id]);
    }
    if id in s.locks && Referenced(s, s.locks[id]) {
      var t :| t in s.callers && s.callers[t].mutex == s.locks[id];
      assert s.callers[t].id == id;
    }
  }

  /** In every interleaving chunks have mutexes of their own, a chunk can be entered
      exactly when nobody is inside, and reaped exactly when nobody wants it. */
  lemma ChunksAreIndependent<C>(store: map<nat, C>, es: seq<Event<C>>, ok: (State<C>, Event<C>) -> bool)
    requires Legal(Start(store), es, ok)
    ensures var s := Run(Start(store), es, ok);
      && TableInv(s)
      && (forall t :: t in s.callers && s.callers[t].Waiting? ==>
            (Enabled(s, Lock(t)) <==> !Inside(s, s.callers[t].id)))
      && (forall id :: Enabled(s, Reap(id)) <==> id in s.locks && !Wanted(s, id))
  {
    TableRun(Start(store), es, ok);
    var s := Run(Start(store), es, ok);
    forall t | t in s.callers && s.callers[t].Waiting?
      ensures Enabled(s, Lock(t)) <==> !Inside(s, s.callers[t].id)
    {
      EntersIff(s, t);
    }
    forall id ensures Enabled(s, Reap(id)) <==> id in s.locks && !Wanted(s, id) { ReapableIff(s, id); }
  }

  // ---- Leaving --------------------------------------------------------

  ghost predicate Leaves<C>(e: Event<C>) {
    e.PutFails? || e.PutLost? || e.Drop?
  }

  /** Whichever way the caller inside a chunk leaves, the next one may enter. */
  lemma LeavingLetsIn<C>(s: State<C>, e: Event<C>, u: nat)
    requires TableInv(s) && Enabled(s, e) && Leaves(e)
    requires u in s.callers && s.callers[u].Waiting? && s.callers[u].id == s.callers[e.t].id
    ensures var s' := Apply(s, e);
      e.t !in s'.callers && u in s'.callers && s'.callers[u] == s.callers[u] && Enabled(s', Lock(u))
  {
    var s' := Apply(s, e);
    TableStep(s, e);
    forall v | At(s', v) ensures s'.callers[v].id != s.callers[u].id {
      assert At(s, v);
      Alone(s, v, e.t);
    }
    EntersIff(s', u);
  }

  /** A caller that gives up is gone, and nothing else has changed. */
  lemma GivingUpForgets<C>(s: State<C>, t: nat)
    requires Enabled(s, GiveUp(t))
    ensures var s' := Apply(s, GiveUp(t));
      && t !in s'.callers && (forall u :: u != t ==> (u in s'.callers <==> u in s.callers))
      && (forall u :: u != t && u in s.callers ==> s'.callers[u] == s.callers[u])
      && s'.locks == s.locks && s'.cache == s.cache && s'.store == s.store
  {
  }

  // ---- The reaper -----------------------------------------------------

  /** The same but for the lock table. */
  ghost predicate SameBut<C>(s: State<C>, s': State<C>) {
    && s'.callers == s.callers && s'.nextMutex == s.nextMutex
    && s'.cache == s.cache && s'.store == s.store && s'.minted == s.minted
  }

  /** Exactly the entries of chunks in use are left, each with its mutex. */
  ghost predicate Reaped<C>(s: State<C>, s': State<C>) {
    && SameBut(s, s')
    && (forall id :: id in s'.locks <==> id in s.locks && Wanted(s, id))
    && (forall id :: id in s'.locks ==> s'.locks[id] == s.locks[id])
  }

  /** What the reaper may take out. */
  ghost predicate Unused<C>(s: State<C>, todo: set<nat>) {
    forall id :: id in todo <==> id in s.locks && !Wanted(s, id)
  }

  lemma ReapOne<C>(s: State<C>, todo: set<nat>, id: nat)
    requires TableInv(s) && Unused(s, todo) && id in todo
    ensures Enabled(s, Reap(id))
    ensures var s1 := Apply(s, Reap(id)); TableInv(s1) && Unused(s1, todo - {id}) && SameBut(s, s1)
  {
    ReapableIff(s, id);
    TableStep(s, Reap(id));
    var s1 := Apply(s, Reap(id));
    forall i ensures Wanted(s1, i) <==> Wanted(s, i) {}
  }

  lemma ThenReaped<C>(s: State<C>, todo: set<nat>, id: nat, s': State<C>)
    requires Unused(s, todo) && id in todo && Enabled(s, Reap(id)) && Reaped(Apply(s, Reap(id)), s')
    ensures Reaped(s, s')
  {
    var s1 := Apply(s, Reap(id));
    forall i ensures Wanted(s1, i) <==> Wanted(s, i) {}
  }

  /** A pass of the reaper leaves exactly the entries of chunks in use. */
  lemma {:induction false} ReaperPass<C>(s: State<C>, todo: set<nat>) returns (es: seq<Event<C>>)
    requires TableInv(s) && Unused(s, todo)
    ensures |es| == |todo| && (forall e :: e in es ==> e.Reap?) && Legal(s, es, Fresh)
    ensures Reaped(s, Run(s, es, Fresh))
    decreases todo
  {
    es := [];
    if todo != {} {
      var id :| id in todo;
      ReapOne(s, todo, id);
      var rest := ReaperPass(Apply(s, Reap(id)), todo - {id});
      es := [Reap(id)] + rest;
      assert es[1..] == rest;
      ThenReaped(s, todo, id, Run(s, es, Fresh));
    }
  }

  /** A chunk locked again after its entry was reaped gets a mutex that no chunk has
      had before. */
  lemma RelockedIsNew<C>(s: State<C>, id: nat, t: nat, hint: Hint)
    requires TableInv(s) && id in s.locks && Enabled(s, Reap(id)) && t !in s.callers
    ensures var s' := Apply(s, Reap(id));
      && Enabled(s', GetLock(t, id, hint))
      && var s'' := Apply(s', GetLock(t, id, hint));
         && id in s''.locks && s''.locks[id] >= s.nextMutex && s''.locks[id] != s.locks[id]
         && t in s''.callers && s''.callers[t] == Waiting(id, s''.locks[id], hint)
  {
  }

  /** A run of that kind: acquired, given up, reaped, acquired again. */
  lemma ReapedAndRelocked() returns (before: seq<Event<int>>, es: seq<Event<int>>)
    ensures before <= es && Legal(Start(map[0 := 10]), before, Fresh) && Legal(Start(map[0 := 10]), es, Fresh)
    ensures var s, s' := Run(Start(map[0 := 10]), before, Fresh), Run(Start(map[0 := 10]), es, Fresh);
      0 in s.locks && 0 in s'.locks && s.locks[0] != s'.locks[0] && 1 !in s'.callers && 2 in s'.callers
  {
    var s := Start(map[0 := 10]);
    before := Then(s, [], GetLock(1, 0, Cache));
    es := Then(s, before, GiveUp(1));
    es := Then(s, es, Reap(0));
    es := Then(s, es, GetLock(2, 0, Cache));
  }

  // ---- The cache ------------------------------------------------------

  /** An evicted record is read from the store again. */
  lemma EvictedIsFetched<C>(s: State<C>, t: nat, id: nat)
    requires Enabled(s, Evict(id)) && At(s, t) && s.callers[t].id == id && s.callers[t].stage.Entered? && id in s.store
    ensures var s' := Apply(s, Evict(id));
      && !Enabled(s', CacheHit(t)) && Enabled(s', Fetch(t))
      && Apply(s', Fetch(t)).callers[t].stage == Fetched(s.store[id])
      && (forall i :: i != id ==> (i in s'.cache <==> i in s.cache) && (i in s.cache ==> s'.cache[i] == s.cache[i]))
  {
  }

  /** An update of a caller that caches is what the next caller inside finds. */
  lemma UpdateIsFound<C>(s: State<C>, t: nat, chunk: C)
    requires Enabled(s, Put(t, chunk)) && s.callers[t].hint.Cache?
    ensures var id, s1 := s.callers[t].id, Apply(s, Put(t, chunk));
      && Enabled(s1, Refresh(t))
      && var s2 := Apply(s1, Refresh(t));
         && id in s2.store && s2.store[id] == chunk && id in s2.cache && s2.cache[id] == chunk
         && Enabled(s2, Drop(t)) && Apply(s2, Drop(t)).cache == s2.cache && Apply(s2, Drop(t)).store == s2.store
  {
  }

  /** What a caller that asks not to cache reads or puts never enters the cache. */
  lemma NoCacheLeavesCache<C>(s: State<C>, e: Event<C>)
    requires Enabled(s, e) && (e.Fill? || e.Refresh?)
    ensures var s', c := Apply(s, e), s.callers[e.t];
      && (c.hint.NoCache? ==> s'.cache == s.cache)
      && (c.hint.Cache? ==> c.id in s'.cache && s'.cache[c.id] == c.stage.chunk)
      && s'.store == s.store && s'.callers[e.t].stage == Ready(c.stage.chunk)
  {
  }

  /** A chunk found absent can be created. */
  lemma AbsentIsCreated<C>(s: State<C>, t: nat, chunk: C)
    requires Enabled(s, CheckAbsent(t))
    ensures var id, s1 := s.callers[t].id, Apply(s, CheckAbsent(t));
      && s1.store == s.store && s1.cache == s.cache && Enabled(s1, Put(t, chunk))
      && var s2 := Apply(s1, Put(t, chunk));
         id !in s.store && id in s2.store && s2.store[id] == chunk && Enabled(s2, Refresh(t))
  {
  }

  /** An auto-generated chunk is stored, then cached. */
  lemma AutoIsCached<C>(s: State<C>, id: nat, chunk: C)
    requires Enabled(s, AutoPut(id, chunk))
    ensures var s1 := Apply(s, AutoPut(id, chunk));
      && Enabled(s1, AutoPopulate(id)) && id in s1.store && s1.store[id] == chunk && s1.cache == s.cache
      && var s2 := Apply(s1, AutoPopulate(id));
         && s2.store == s1.store && id in s2.cache && s2.cache[id] == chunk && s2.minted.Keys == s.minted.Keys
  {
  }
}
