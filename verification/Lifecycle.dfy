/** The chunk request handlers, each taken as one atomic step on the records and
the blocks. Any allocation, read, put, free or commit may fail, and a put that reports
an error may have been applied. */
module Lifecycle {
  import opened Allocator
  import opened ChunkRecords
  import opened Options

  datatype Error = AlreadyExists | NotFound | InvalidState | IndexOutOfRange | AllocationFailed | StorageFailed

  datatype Reply = Done(chunk: Chunk) | Refused(error: Error)

  datatype Request =
    | Create(id: Id, count: nat)
    | Generate(id: Id, count: nat)  // `id` is the generated one
    | Extend(id: Id, count: nat)
    | Close(id: Id, length: nat)
    | Drop(id: Id)
    | DropRange(id: Id, offset: nat, size: nat)
    | Replace(id: Id, index: nat, sequence: nat)
  {
    predicate Rewrites() {
      DropRange? || Replace?
    }
  }

  ghost predicate Ordered(store: map<Id, Chunk>) {
    forall id :: id in store ==> InOrder(store[id].strips)
  }

  /** The records after a handler that stored `put`, if anything, under the id. */
  function Stored(store: map<Id, Chunk>, id: Id, put: Option<Chunk>): map<Id, Chunk> {
    if put.Some? then store[id := put.value] else store
  }

  /** What was stored is what was there. */
  predicate SameRecord(store: map<Id, Chunk>, id: Id, put: Option<Chunk>) {
    put.Some? && id in store && store[id] == put.value
  }

  /** Cached records are the stored ones. */
  ghost predicate AllRight(cache: map<Id, Chunk>, store: map<Id, Chunk>) {
    forall id :: id in cache ==> id in store && cache[id] == store[id]
  }

  /** A put, with or without a refresh, leaves the cache right exactly when it leaves the
      record of its own chunk right. */
  lemma RightAfterPut(cache: map<Id, Chunk>, store: map<Id, Chunk>, id: Id, c: Chunk)
    requires AllRight(cache, store)
    ensures AllRight(cache, store[id := c]) <==> (id in cache ==> cache[id] == c)
    ensures AllRight(cache[id := c], store[id := c])
  {
  }

  /** One strip of a live record, and what freeing blocks of it does. */
  lemma OneStrip(store: map<Id, Chunk>, held: set<Segment>, id: Id, index: nat, freed: set<Segment>)
    requires Sound(store, held) && LiveIn(store, id) && index < |store[id].strips|
    requires Among(freed, [store[id].strips[index]])
    ensures Once([store[id].strips[index]]) && Covered([store[id].strips[index]], held)
    ensures Among(freed, store[id].strips) && OthersHeld(store, held - freed, id)
    ensures Sound(store, held - freed) <==> freed == {}
  {
    var strips := store[id].strips;
    var rest := strips[..index] + strips[index + 1..];
    forall b ensures Count(strips, b) == Count([strips[index]], b) + Count(rest, b) { CountAt(strips, index, b); }
    PartFits(store, held, id, rest, [strips[index]], freed);
    FreeOwn(store, held, id, freed);
  }

  lemma NewStripNamed(strips: seq<Strip>, index: nat, strip: Strip, kept: set<Segment>)
    requires index < |strips| && Among(kept, [strip])
    ensures Among(kept, strips[index := strip])
  {
    forall b | b in kept ensures Count(strips[index := strip], b) > 0 { CountAt(strips[index := strip], index, b); }
  }

  // ---- What a torn request leaves behind -------------------------------

  /** A delete, range delete or strip update frees a block of a record that then lives
      on. The block can be granted again, and once another record names it the two
      share it, whatever is held. */
  lemma TornIsShared(store: map<Id, Chunk>, held: set<Segment>, id: Id, freed: set<Segment>,
                     b: Segment, other: Id, c: Chunk, held': set<Segment>)
    requires Sound(store, held) && LiveIn(store, id) && Among(freed, store[id].strips) && b in freed
    requires other != id && c.state != Deleted && Count(c.strips, b) > 0
    ensures b !in held - freed && !Sound(store, held - freed)
    ensures !Sound(store[other := c], held')
  {
    FreeOwn(store, held, id, freed);
    var now := store[other := c];
    assert LiveIn(now, id) && LiveIn(now, other);
    assert Count(now[id].strips, b) > 0 && Count(now[other].strips, b) > 0;
  }

  /** A delete that was applied and reported an error leaves the live record in the cache.
      Repeated, it frees those blocks again, though another record may name them now. */
  lemma StaleDeleteFreesOthers(store: map<Id, Chunk>, held: set<Segment>, cached: Chunk, b: Segment, other: Id)
    requires Sound(store, held) && Count(cached.strips, b) > 0
    requires LiveIn(store, other) && Count(store[other].strips, b) > 0
    ensures Among({b}, cached.strips) && !Sound(store, held - {b})
  {
    FreeOwn(store, held, other, {b});
  }

  /** One record with these strips. */
  function Alone(strips: seq<Strip>): map<Id, Chunk> {
    map[1 := Chunk(Active, strips, Capacity(strips), 0)]
  }

  lemma AloneIsSound(strips: seq<Strip>, held: set<Segment>)
    requires Once(strips) && Covered(strips, held)
    ensures Sound(Alone(strips), held) && Sized(Alone(strips)) && LiveIn(Alone(strips), 1)
  {
  }

  lemma OneBlock(strip: Strip, block: Segment, b: Segment)
    requires strip.segments == [block]
    ensures Count([strip], b) == if b == block then 1 else 0
  {
    assert [strip][..0] == [];
    assert Count([], b) == 0;
  }

  lemma WholeStrip(strip: Strip)
    requires strip.offset == 0 && strip.capacity == 1
    ensures Select([strip], 0, 1, true) == [strip]
  {
    assert [strip][..0] == [];
    assert Select([], 0, 1, true) == [];
  }

  /** Each kind of request can be torn: the block of a sound record is among those a
      delete, a range delete and a strip update free before their put. */
  lemma TornExamples(block: Segment) returns (strips: seq<Strip>)
    ensures Sound(Alone(strips), {block}) && Sized(Alone(strips)) && LiveIn(Alone(strips), 1)
    ensures |strips| == 1 && Among({block}, strips) && Among({block}, [strips[0]])
    ensures Among({block}, Select(strips, 0, 1, true))
  {
    var strip := Strip(0, 0, 1, [block]);
    strips := [strip];
    forall b ensures Count(strips, b) == if b == block then 1 else 0 { OneBlock(strip, block, b); }
    WholeStrip(strip);
    AloneIsSound(strips, {block});
  }

  /** Every committed block has been named, or is about to be by these strips. */
  ghost predicate NamedOrIn(committed: set<Segment>, named: set<Segment>, strips: seq<Strip>) {
    forall b :: b in committed ==> b in named || Count(strips, b) > 0
  }

  lemma NamedAfter(committed: set<Segment>, named: set<Segment>, freed: set<Segment>, kept: set<Segment>,
                   strips: seq<Strip>)
    requires committed <= named && Among(kept, strips)
    ensures NamedOrIn(committed - freed + kept, named - freed, strips)
  {
  }

  // ---- What a request asks for ------------------------------------------

  ghost predicate SameAt(before: map<Id, Chunk>, after: map<Id, Chunk>, id: Id) {
    (id in after <==> id in before) && (id in before ==> after[id] == before[id])
  }

  ghost predicate OnlyAt(before: map<Id, Chunk>, after: map<Id, Chunk>, id: Id) {
    forall i :: i != id ==> SameAt(before, after, i)
  }

  /** A new record with `count` strips, in order, unless there is one already. */
  ghost predicate Created(before: map<Id, Chunk>, after: map<Id, Chunk>, id: Id, count: nat) {
    if id in before then SameAt(before, after, id)
    else
      && id in after && after[id].state == Active && after[id].sealedLength == 0
      && |after[id].strips| == count && InOrder(after[id].strips)
  }

  /** `count` strips more, if the record is active. */
  ghost predicate Extended(before: map<Id, Chunk>, after: map<Id, Chunk>, id: Id, count: nat) {
    if id in before && before[id].state == Active then
      && id in after && before[id].strips <= after[id].strips
      && |after[id].strips| == |before[id].strips| + count
      && after[id] == before[id].(strips := after[id].strips, capacity := after[id].capacity)
    else SameAt(before, after, id)
  }

  ghost predicate Closed(before: map<Id, Chunk>, after: map<Id, Chunk>, id: Id, length: nat) {
    if id in before && before[id].state == Active
    then id in after && after[id] == before[id].(state := Sealed, sealedLength := length)
    else SameAt(before, after, id)
  }

  ghost predicate Dropped(before: map<Id, Chunk>, after: map<Id, Chunk>, id: Id) {
    if LiveIn(before, id) && before[id].state != Init
    then id in after && after[id] == before[id].(state := Deleted)
    else SameAt(before, after, id)
  }

  /** Without the strips the range hits, if the record is active. */
  ghost predicate RangeDropped(before: map<Id, Chunk>, after: map<Id, Chunk>, id: Id, offset: nat, size: nat) {
    if id in before && before[id].state == Active then
      && id in after && after[id].strips == Select(before[id].strips, offset, size, false)
      && after[id] == before[id].(strips := after[id].strips, capacity := after[id].capacity)
    else SameAt(before, after, id)
  }

  /** A new strip in one place, if the record is active or sealed and has that place. */
  ghost predicate Replaced(before: map<Id, Chunk>, after: map<Id, Chunk>, id: Id, index: nat, sequence: nat) {
    if id in before && before[id].state in {Active, Sealed} && index < |before[id].strips| then
      && id in after && |after[id].strips| == |before[id].strips|
      && after[id].strips[index].offset == 0 && after[id].strips[index].sequence == sequence
      && after[id] == before[id].(strips := before[id].strips[index := after[id].strips[index]],
                                  capacity := after[id].capacity)
    else SameAt(before, after, id)
  }

  /** What a request does when no call fails. */
  ghost predicate Performed(q: Request, before: map<Id, Chunk>, after: map<Id, Chunk>) {
    match q
    case Create(id, count) => Created(before, after, id, count)
    case Generate(id, count) => Created(before, after, id, count)
    case Extend(id, count) => Extended(before, after, id, count)
    case Close(id, length) => Closed(before, after, id, length)
    case Drop(id) => Dropped(before, after, id)
    case DropRange(id, offset, size) => RangeDropped(before, after, id, offset, size)
    case Replace(id, index, sequence) => Replaced(before, after, id, index, sequence)
  }

  /** Without range deletes and strip updates, strips numbered in order stay so. */
  ghost predicate KeepsOrder(requests: seq<Request>, before: map<Id, Chunk>, now: map<Id, Chunk>) {
    Ordered(before) && (forall q :: q in requests ==> !q.Rewrites()) ==> Ordered(now)
  }

  /** Each request of a run changes at most the record it names. */
  ghost predicate EachOnlyAt(requests: seq<Request>, stores: seq<map<Id, Chunk>>) {
    && |stores| == |requests| + 1
    && forall i :: 0 <= i < |requests| ==> OnlyAt(stores[i], stores[i + 1], requests[i].id)
  }

  ghost predicate EachPerformed(requests: seq<Request>, stores: seq<map<Id, Chunk>>) {
    && |stores| == |requests| + 1
    && forall i :: 0 <= i < |requests| ==> Performed(requests[i], stores[i], stores[i + 1])
  }

  lemma OneMore(requests: seq<Request>, n: nat, stores: seq<map<Id, Chunk>>, store: map<Id, Chunk>)
    requires n < |requests| && EachOnlyAt(requests[..n], stores) && OnlyAt(stores[n], store, requests[n].id)
    ensures EachOnlyAt(requests[..n + 1], stores + [store])
    ensures EachPerformed(requests[..n], stores) && Performed(requests[n], stores[n], store) ==>
      EachPerformed(requests[..n + 1], stores + [store])
  {
    var now := stores + [store];
    assert forall i :: 0 <= i <= n ==> now[i] == stores[i];
    assert forall i :: 0 <= i < n ==> requests[..n + 1][i] == requests[..n][i];
  }

  /** The blocks of the strips that were among `tentative`. */
  ghost predicate AllOf(kept: set<Segment>, strips: seq<Strip>, tentative: set<Segment>) {
    forall b :: Count(strips, b) > 0 && b in tentative ==> b in kept
  }

  class Handler {
    /** Whether lock tracking is attached; without it an allocate with a
        caller-supplied id makes no existence check. */
    const locks: bool
    /** Whether puts report what they did, and those that follow a free succeed. */
    const steady: bool
    var store: map<Id, Chunk>
    /** The records the lock table keeps. */
    var cache: map<Id, Chunk>
    var tentative: set<Segment>
    var committed: set<Segment>
    /** Blocks some persisted record has named since they were granted. */
    var named: set<Segment>
    /** How many of the calls below have failed, in whole or in part. */
    ghost var failures: nat

    constructor (locks: bool, steady: bool)
      ensures Valid() && store == map[] && this.locks == locks && this.steady == steady
    {
      this.locks, this.steady := locks, steady;
      store, cache, tentative, committed, named, failures := map[], map[], {}, {}, {}, 0;
    }

    ghost function Held(): set<Segment>
      reads this
    {
      tentative + committed
    }

    /** Nothing is committed that no record has named. */
    ghost predicate Ledger()
      reads this
    {
      tentative !! committed && committed <= named
    }

    /** A cached record of the chunk is the stored one. */
    ghost predicate Right(id: Id)
      reads this
    {
      id in cache ==> id in store && cache[id] == store[id]
    }

    ghost predicate Coherent()
      reads this
    {
      (!locks ==> cache == map[]) && AllRight(cache, store)
    }

    ghost predicate Valid()
      reads this
    {
      Sound(store, Held()) && Sized(store) && Ledger() && Coherent()
    }

    // ---- What the handlers call --------------------------------------

    /** A strip is granted free blocks only. A failed attempt may leave blocks
        tentative behind it, when giving them back failed too. */
    method AllocateStrip(sequence: nat) returns (ok: bool, strip: Strip)
      modifies this`tentative, this`failures
      ensures failures == old(failures) + if ok then 0 else 1
      ensures tentative >= old(tentative) && (tentative - old(tentative)) !! old(Held())
      ensures ok ==>
        && strip.offset == 0 && strip.sequence == sequence && strip.capacity == Saturate(|strip.segments|)
        && NewlyHeld([strip], old(Held()), Held())
    {
      var granted: set<Segment> := *;
      granted := granted - tentative - committed;
      var segments: seq<Segment> := *;
      ok := *;
      strip := Strip(0, sequence, Saturate(|segments|), segments);
      if ok {
        ok := Grantable(segments, granted);
      }
      if !ok { failures := failures + 1; }
      tentative := tentative + granted;
    }

    /** Whether the segments are distinct and among those granted. */
    static method Grantable(segments: seq<Segment>, granted: set<Segment>) returns (ok: bool)
      ensures ok ==> forall b :: multiset(segments)[b] <= 1 && (b in segments ==> b in granted)
    {
      var seen: set<Segment> := {};
      for i := 0 to |segments|
        invariant forall b :: b in seen <==> b in segments[..i]
        invariant forall b :: multiset(segments[..i])[b] <= 1 && (b in segments[..i] ==> b in granted)
      {
        assert segments[..i + 1] == segments[..i] + [segments[i]];
        if segments[i] in seen || segments[i] !in granted { return false; }
        seen := seen + {segments[i]};
      }
      assert segments[..|segments|] == segments;
      return true;
    }

    /** Frees any part of the strips' blocks. Asking for a block that is not held, or
        twice for the same block, would free a grant twice. */
    method FreeStrips(strips: seq<Strip>) returns (freed: set<Segment>)
      requires Once(strips) && Covered(strips, Held())
      modifies this`tentative, this`committed, this`named, this`failures
      ensures failures >= old(failures) && (failures == old(failures) ==> Covered(strips, freed))
      ensures Among(freed, strips) && Held() == old(Held()) - freed
      ensures tentative == old(tentative) - freed && committed == old(committed) - freed && named == old(named) - freed
    {
      var segments := Blocks(strips);
      var done: set<Segment> := *;
      done := set b | b in done && b in segments;
      if exists b :: b in segments && b !in done { failures := failures + 1; }
      tentative, committed, named := tentative - done, committed - done, named - done;
      freed := done;
      forall b ensures multiset(segments)[b] == Count(strips, b) { BlocksCount(strips, b); }
    }

    /** Makes any part of the strips' tentative blocks permanent. */
    method CommitStrips(strips: seq<Strip>) returns (kept: set<Segment>)
      modifies this`tentative, this`committed, this`failures
      ensures failures >= old(failures) && (failures == old(failures) ==> AllOf(kept, strips, old(tentative)))
      ensures kept <= old(tentative) && Among(kept, strips) && Held() == old(Held())
      ensures tentative == old(tentative) - kept && committed == old(committed) + kept
      ensures old(Valid()) && Covered(strips, named) ==> Valid()
    {
      var segments := Blocks(strips);
      var done: set<Segment> := *;
      done := set b | b in done && b in segments && b in tentative;
      if exists b :: b in segments && b in tentative && b !in done { failures := failures + 1; }
      tentative, committed := tentative - done, committed + done;
      kept := done;
      forall b ensures multiset(segments)[b] == Count(strips, b) { BlocksCount(strips, b); }
    }

    /** A put either stores the record or changes nothing; when it fails, either may be
        the case. */
    method PutChunk(id: Id, c: Chunk, afterFree: bool) returns (ok: bool, stored: bool)
      modifies this`store, this`named, this`failures
      ensures failures == old(failures) + if ok then 0 else 1
      ensures (ok ==> stored) && (steady ==> (stored ==> ok) && (afterFree ==> ok))
      ensures store == if stored then old(store)[id := c] else old(store)
      ensures old(named) <= named && if stored then Covered(c.strips, named) else named == old(named)
    {
      stored := *;
      ok := *;
      if steady { stored, ok := stored || afterFree, stored || afterFree; }
      ok := ok && stored;
      if !ok { failures := failures + 1; }
      if stored {
        store := store[id := c];
        named := named + set b | b in Blocks(c.strips);
        forall b ensures multiset(Blocks(c.strips))[b] == Count(c.strips, b) { BlocksCount(c.strips, b); }
      }
    }

    /** The record a handler starts from: the cached one, or the stored one, which is
        cached then. Any record may have been evicted before. */
    method Load(id: Id) returns (r: Reply)
      requires Coherent()
      modifies this`cache, this`failures
      ensures Coherent()
      ensures r.Done? ==> id in store && r.chunk == store[id] && (locks ==> id in cache)
      ensures r.Refused? ==> r.error in {NotFound, StorageFailed}
      ensures r.Refused? && r.error == NotFound ==> id !in store
      ensures failures == old(failures) + if r == Refused(StorageFailed) then 1 else 0
    {
      if * { cache := cache - {id}; }
      if id in cache { return Done(cache[id]); }
      if * {
        failures := failures + 1;
        return Refused(StorageFailed);
      }
      if id !in store { return Refused(NotFound); }
      if locks { cache := cache[id := store[id]]; }
      r := Done(store[id]);
    }

    /** The record to change. */
    method LoadActive(id: Id) returns (r: Reply)
      requires Coherent()
      modifies this`cache, this`failures
      ensures Coherent()
      ensures r.Refused? ==> r.error in {NotFound, InvalidState, StorageFailed}
      ensures r.Refused? && r.error == NotFound ==> id !in store
      ensures r.Refused? && r.error == InvalidState ==> id in store && store[id].state != Active
      ensures failures == old(failures) + if r == Refused(StorageFailed) then 1 else 0
      ensures r.Done? ==> id in store && r.chunk == store[id] && r.chunk.state == Active && (locks ==> id in cache)
    {
      r := Load(id);
      if r.Done? && r.chunk.state != Active { r := Refused(InvalidState); }
    }

    /** The record to delete. */
    method LoadUndeleted(id: Id) returns (r: Reply)
      requires Coherent()
      modifies this`cache, this`failures
      ensures Coherent()
      ensures r.Refused? ==> r.error in {NotFound, InvalidState, StorageFailed}
      ensures r.Refused? && r.error == NotFound ==> !LiveIn(store, id)
      ensures r.Refused? && r.error == InvalidState ==> id in store && store[id].state == Init
      ensures failures == old(failures) + if r == Refused(StorageFailed) then 1 else 0
      ensures r.Done? ==>
        && LiveIn(store, id) && r.chunk == store[id] && r.chunk.state != Init && (locks ==> id in cache)
      ensures id in store && store[id].state == Deleted ==> r.Refused? && r.error in {NotFound, StorageFailed}
    {
      r := Load(id);
      if r.Done? && r.chunk.state == Deleted { r := Refused(NotFound); }
      if r.Done? && r.chunk.state == Init { r := Refused(InvalidState); }
    }

    /** The record whose strip is to be replaced. */
    method LoadStrip(id: Id, index: nat) returns (r: Reply)
      requires Coherent()
      modifies this`cache, this`failures
      ensures Coherent()
      ensures r.Refused? ==> r.error in {NotFound, InvalidState, IndexOutOfRange, StorageFailed}
      ensures r.Refused? && r.error == NotFound ==> id !in store
      ensures r.Refused? && r.error == InvalidState ==> id in store && store[id].state !in {Active, Sealed}
      ensures r.Refused? && r.error == IndexOutOfRange ==>
        id in store && store[id].state in {Active, Sealed} && index >= |store[id].strips|
      ensures failures == old(failures) + if r == Refused(StorageFailed) then 1 else 0
      ensures r.Done? ==>
        && id in store && r.chunk == store[id] && r.chunk.state in {Active, Sealed} && index < |r.chunk.strips|
        && (locks ==> id in cache)
    {
      r := Load(id);
      if r.Done? && r.chunk.state != Active && r.chunk.state != Sealed { r := Refused(InvalidState); }
      if r.Done? && index >= |r.chunk.strips| { r := Refused(IndexOutOfRange); }
    }

    /** The put that ends a handler, and the refresh after it. `before` is what was held
        when the records were last sound. */
    method Persist(id: Id, c: Chunk, afterFree: bool, ghost before: set<Segment>) returns (ok: bool, put: Option<Chunk>)
      requires Sound(store, before) && OthersHeld(store, Held(), id) && Sized(store) && c.capacity == Capacity(c.strips)
      requires tentative !! committed && NamedOrIn(committed, named, c.strips)
      requires Coherent()
      modifies this`store, this`named, this`cache, this`failures
      ensures failures == old(failures) + if ok then 0 else 1
      ensures (ok ==> put.Some?) && (steady ==> (put.Some? ==> ok) && (afterFree ==> ok))
      ensures put.Some? ==> put.value == c && Covered(c.strips, named)
      ensures store == Stored(old(store), id, put) && (put == None ==> named == old(named))
      ensures cache == if ok && locks then old(cache)[id := c] else old(cache)
      ensures Coherent() <==> Right(id)
      ensures Right(id) <==> ok || put == None || (id in cache ==> cache[id] == c)
      ensures put.Some? ==> (Valid() <==> (c.state == Deleted || Fits(old(store), Held(), id, c.strips)) && Right(id))
    {
      PutSoundIff(store, before, Held(), id, c);
      RightAfterPut(cache, store, id, c);
      var stored;
      ok, stored := PutChunk(id, c, afterFree);
      if ok && locks { cache := cache[id := c]; }
      put := if stored then Some(c) else None;
    }

    // ---- The handlers ------------------------------------------------

    /** Adds `count` strips, one grant each, numbered on from the strips there. */
    method AllocateStrips(base: seq<Strip>, count: nat) returns (ok: bool, added: seq<Strip>)
      modifies this`tentative, this`failures
      ensures failures == old(failures) + if ok then 0 else 1
      ensures tentative >= old(tentative) && (tentative - old(tentative)) !! old(Held())
      ensures ok ==> |added| == count && NewlyHeld(added, old(Held()), Held())
      ensures ok && InOrder(base) ==> InOrder(base + added)
      ensures ok ==> forall i :: 0 <= i < |added| ==> added[i].offset == 0
    {
      added := [];
      var start := Saturate(|base|);
      assert base + [] == base;
      for i := 0 to count
        invariant tentative >= old(tentative) && (tentative - old(tentative)) !! old(Held())
        invariant failures == old(failures)
        invariant |added| == i && NewlyHeld(added, old(Held()), Held())
        invariant InOrder(base) ==> InOrder(base + added)
        invariant forall i :: 0 <= i < |added| ==> added[i].offset == 0
      {
        ghost var held := Held();
        var granted, strip := AllocateStrip((start + i) % U32);
        if !granted {
          return false, added;
        }
        StripsGrow(base, added, strip, old(Held()), held, Held());
        added := added + [strip];
      }
      ok := true;
    }

    method Allocate(given: bool, id: Id, count: nat) returns (r: Reply, put: Option<Chunk>)
      requires Valid()
      requires !given ==> id !in store
      modifies this
      ensures Valid()
      ensures store == Stored(old(store), id, put) && (r.Done? ==> put == Some(r.chunk))
      ensures r.Refused? ==> committed == old(committed) && tentative >= old(tentative)
      ensures put.Some? ==>
        && put.value.state == Active && put.value.sealedLength == 0
        && |put.value.strips| == count && InOrder(put.value.strips)
      ensures locks && id in old(store) ==> put == None && r.Refused? && r.error in {AlreadyExists, StorageFailed}
      ensures r.Refused? ==> r.error in {AlreadyExists, AllocationFailed, StorageFailed}
      ensures r.Refused? && r.error == AlreadyExists ==>
        given && locks && id in old(store) && put == None && tentative == old(tentative)
      ensures failures >= old(failures)
      ensures r.Refused? && r.error != AlreadyExists ==> failures > old(failures)
      ensures failures == old(failures) ==>
        && (r.Done? <==> !(given && locks && id in old(store)))
        && (r.Done? ==> Covered(r.chunk.strips, committed))
      ensures Forward(old(store), store) <==> put == None || id !in old(store) || old(store)[id].state.Rank() <= 1
    {
      put := None;
      if given && locks {
        if * {
          failures := failures + 1;
          return Refused(StorageFailed), put;
        }
        if id in store { return Refused(AlreadyExists), put; }
      }
      r, put := CreateRecord(id, count);
    }

    /** A new record under the id, in place of any other. */
    method CreateRecord(id: Id, count: nat) returns (r: Reply, put: Option<Chunk>)
      requires Valid() && id !in cache
      modifies this
      ensures Valid()
      ensures store == Stored(old(store), id, put) && (r.Done? ==> put == Some(r.chunk))
      ensures r.Refused? ==> committed == old(committed) && tentative >= old(tentative)
      ensures put.Some? ==>
        && put.value.state == Active && put.value.sealedLength == 0
        && |put.value.strips| == count && InOrder(put.value.strips)
      ensures r.Refused? ==> r.error in {AllocationFailed, StorageFailed} && failures > old(failures)
      ensures failures >= old(failures)
      ensures failures == old(failures) ==> r.Done? && Covered(r.chunk.strips, committed)
      ensures Forward(old(store), store) <==> put == None || id !in old(store) || old(store)[id].state.Rank() <= 1
    {
      put := None;
      var ok, strips := AllocateStrips([], count);
      HeldGrows(store, old(Held()), Held());
      if !ok { return Refused(AllocationFailed), put; }
      assert [] + strips == strips;
      var chunk := Chunk(Active, strips, Capacity(strips), 0);
      GrownFits(store, old(Held()), Held(), id, [], strips);
      PutForwardIff(store, id, chunk);
      ok, put := Persist(id, chunk, false, old(Held()));
      if !ok { return Refused(StorageFailed), put; }
      assert Valid();
      var _ := CommitStrips(strips);
      r := Done(chunk);
    }

    /** Leaves a stale record in the cache when its put was applied and reported an
        error, unless it had added nothing. */
    method Append(id: Id, count: nat) returns (r: Reply, put: Option<Chunk>)
      requires Valid()
      modifies this
      ensures Valid() <==> Right(id)
      ensures Right(id) <==> r.Done? || put == None || !locks || SameRecord(old(store), id, put)
      ensures steady ==> Right(id)
      ensures Forward(old(store), store)
      ensures store == Stored(old(store), id, put) && (r.Done? ==> put == Some(r.chunk))
      ensures r.Refused? ==> committed == old(committed) && tentative >= old(tentative)
      ensures put.Some? ==>
        && id in old(store) && old(store)[id].state == Active
        && old(store)[id].strips <= put.value.strips && |put.value.strips| == |old(store)[id].strips| + count
        && put.value == old(store)[id].(strips := put.value.strips, capacity := put.value.capacity)
        && (InOrder(old(store)[id].strips) ==> InOrder(put.value.strips))
      ensures id in old(store) && old(store)[id].state != Active ==>
        r.Refused? && r.error in {InvalidState, StorageFailed}
      ensures r.Refused? ==> r.error in {NotFound, InvalidState, AllocationFailed, StorageFailed}
      ensures r.Refused? && r.error == NotFound ==> id !in old(store)
      ensures r.Refused? && r.error == InvalidState ==> id in old(store) && old(store)[id].state != Active
      ensures r.Refused? && r.error in {NotFound, InvalidState} ==> put == None && tentative == old(tentative)
      ensures r.Refused? && r.error in {AllocationFailed, StorageFailed} ==> failures > old(failures)
      ensures failures >= old(failures)
      ensures failures == old(failures) ==>
        && (r.Done? <==> id in old(store) && old(store)[id].state == Active)
        && (r.Done? ==> Covered(r.chunk.strips[|old(store)[id].strips|..], committed))
    {
      put := None;
      var found := LoadActive(id);
      if found.Refused? { return found, put; }
      r, put := ExtendRecord(id, found.chunk, count);
    }

    /** Adds strips to the record. */
    method ExtendRecord(id: Id, record: Chunk, count: nat) returns (r: Reply, put: Option<Chunk>)
      requires Valid() && id in store && record == store[id] && record.state == Active && (locks ==> id in cache)
      modifies this
      ensures Valid() <==> Right(id)
      ensures Right(id) <==> r.Done? || put == None || !locks || SameRecord(old(store), id, put)
      ensures steady ==> Right(id)
      ensures Forward(old(store), store)
      ensures store == Stored(old(store), id, put) && (r.Done? ==> put == Some(r.chunk))
      ensures r.Refused? ==> committed == old(committed) && tentative >= old(tentative)
      ensures put.Some? ==>
        && record.strips <= put.value.strips && |put.value.strips| == |record.strips| + count
        && put.value == record.(strips := put.value.strips, capacity := put.value.capacity)
        && (InOrder(record.strips) ==> InOrder(put.value.strips))
      ensures r.Refused? ==> r.error in {AllocationFailed, StorageFailed} && failures > old(failures)
      ensures failures >= old(failures)
      ensures failures == old(failures) ==> r.Done? && Covered(r.chunk.strips[|record.strips|..], committed)
    {
      put := None;
      var chunk := record;
      var ok, added := AllocateStrips(chunk.strips, count);
      HeldGrows(store, old(Held()), Held());
      if !ok { return Refused(AllocationFailed), put; }
      GrownFits(store, old(Held()), Held(), id, chunk.strips, added);
      forall b ensures Count(chunk.strips + added, b) == Count(chunk.strips, b) + Count(added, b) {
        CountConcat(chunk.strips, added, b);
      }
      chunk := chunk.(strips := chunk.strips + added, capacity := Capacity(chunk.strips + added));
      PutForwardIff(store, id, chunk);
      ok, put := Persist(id, chunk, false, old(Held()));
      if !ok { return Refused(StorageFailed), put; }
      assert Valid();
      var _ := CommitStrips(added);
      r := Done(chunk);
    }

    method Seal(id: Id, length: nat) returns (r: Reply, put: Option<Chunk>)
      requires Valid()
      modifies this
      ensures Valid() <==> Right(id)
      ensures Right(id) <==> r.Done? || put == None || !locks || SameRecord(old(store), id, put)
      ensures steady ==> Right(id)
      ensures Forward(old(store), store)
      ensures tentative == old(tentative) && committed == old(committed)
      ensures store == Stored(old(store), id, put) && (r.Done? ==> put == Some(r.chunk))
      ensures put.Some? ==>
        && id in old(store) && old(store)[id].state == Active
        && put.value == old(store)[id].(state := Sealed, sealedLength := length)
      ensures id in old(store) && old(store)[id].state != Active ==>
        r.Refused? && r.error in {InvalidState, StorageFailed}
      ensures r.Refused? ==> r.error in {NotFound, InvalidState, StorageFailed}
      ensures r.Refused? && r.error == NotFound ==> id !in old(store)
      ensures r.Refused? && r.error == InvalidState ==> id in old(store) && old(store)[id].state != Active
      ensures failures == old(failures) + if r == Refused(StorageFailed) then 1 else 0
      ensures failures == old(failures) ==> (r.Done? <==> id in old(store) && old(store)[id].state == Active)
      ensures r.Refused? && r.error != StorageFailed ==> put == None
    {
      put := None;
      var found := LoadActive(id);
      if found.Refused? { return found, put; }
      var chunk := found.chunk;
      chunk := chunk.(state := Sealed, sealedLength := length);
      PartFits(store, Held(), id, chunk.strips, [], {});
      assert Held() - {} == Held();
      PutForwardIff(store, id, chunk);
      var ok;
      ok, put := Persist(id, chunk, false, Held());
      r := if ok then Done(chunk) else Refused(StorageFailed);
    }

    /** The free comes before the put: if the put then fails, the record lives on
        with some of its blocks free, unless none had been freed. */
    method Delete(id: Id) returns (r: Reply, put: Option<Chunk>, freed: set<Segment>)
      requires Valid()
      modifies this
      ensures Forward(old(store), store)
      ensures Valid() <==> (put.Some? || freed == {}) && Right(id)
      ensures Right(id) <==> r.Done? || put == None || !locks
      ensures steady ==> Valid()
      ensures store == Stored(old(store), id, put) && (r.Done? ==> put == Some(r.chunk))
      ensures put.Some? ==>
        LiveIn(old(store), id) && old(store)[id].state != Init && put.value == old(store)[id].(state := Deleted)
      ensures freed != {} ==> LiveIn(old(store), id) && Among(freed, old(store)[id].strips)
      ensures Held() == old(Held()) - freed
      ensures id in old(store) && old(store)[id].state == Deleted ==> r.Refused? && r.error in {NotFound, StorageFailed}
      ensures failures >= old(failures)
      ensures r.Refused? ==> r.error in {NotFound, InvalidState, StorageFailed}
      ensures r.Refused? && r.error != StorageFailed ==> put == None && freed == {}
      ensures r.Refused? && r.error == NotFound ==> !LiveIn(old(store), id)
      ensures r.Refused? && r.error == InvalidState ==> id in old(store) && old(store)[id].state == Init
      ensures r.Refused? && r.error == StorageFailed ==> failures > old(failures)
      ensures failures == old(failures) ==>
        && (r.Done? <==> LiveIn(old(store), id) && old(store)[id].state != Init)
        && (r.Done? ==> Covered(old(store)[id].strips, freed))
    {
      freed, put := {}, None;
      var found := LoadUndeleted(id);
      if found.Refused? { return found, put, freed; }
      r, put, freed := DropRecord(id, found.chunk);
    }

    /** Frees the record's blocks and puts it as deleted. */
    method DropRecord(id: Id, record: Chunk) returns (r: Reply, put: Option<Chunk>, freed: set<Segment>)
      requires Valid() && LiveIn(store, id) && record == store[id] && (locks ==> id in cache)
      modifies this
      ensures Forward(old(store), store)
      ensures Valid() <==> (put.Some? || freed == {}) && Right(id)
      ensures Right(id) <==> r.Done? || put == None || !locks
      ensures steady ==> Valid()
      ensures store == Stored(old(store), id, put) && (r.Done? ==> put == Some(r.chunk))
      ensures put.Some? ==> put.value == record.(state := Deleted)
      ensures Among(freed, record.strips) && Held() == old(Held()) - freed
      ensures r.Refused? ==> r.error == StorageFailed && failures > old(failures)
      ensures failures >= old(failures)
      ensures failures == old(failures) ==> r.Done? && Covered(record.strips, freed)
    {
      var chunk := record;
      freed := FreeStrips(chunk.strips);
      FreeOwn(store, old(Held()), id, freed);
      chunk := chunk.(state := Deleted);
      PutForwardIff(store, id, chunk);
      var ok;
      ok, put := Persist(id, chunk, true, old(Held()));
      r := if ok then Done(chunk) else Refused(StorageFailed);
    }

    /** Removes the strips the range hits. */
    method DeleteRange(id: Id, offset: nat, size: nat) returns (r: Reply, put: Option<Chunk>, freed: set<Segment>)
      requires Valid()
      modifies this
      ensures Forward(old(store), store)
      ensures Valid() <==> (put.Some? || freed == {}) && Right(id)
      ensures Right(id) <==> r.Done? || put == None || !locks || SameRecord(old(store), id, put)
      ensures steady ==> Valid()
      ensures store == Stored(old(store), id, put) && (r.Done? ==> put == Some(r.chunk))
      ensures put.Some? ==>
        && id in old(store) && old(store)[id].state == Active
        && put.value == old(store)[id].(strips := Select(old(store)[id].strips, offset, size, false),
                                        capacity := put.value.capacity)
      ensures freed != {} ==>
        && LiveIn(old(store), id)
        && Among(freed, Select(old(store)[id].strips, offset, size, true))
      ensures Held() == old(Held()) - freed
      ensures failures >= old(failures)
      ensures r.Refused? ==> r.error in {NotFound, InvalidState, StorageFailed}
      ensures r.Refused? && r.error != StorageFailed ==> put == None && freed == {}
      ensures r.Refused? && r.error == NotFound ==> id !in old(store)
      ensures r.Refused? && r.error == InvalidState ==> id in old(store) && old(store)[id].state != Active
      ensures r.Refused? && r.error == StorageFailed ==> failures > old(failures)
      ensures failures == old(failures) ==>
        && (r.Done? <==> id in old(store) && old(store)[id].state == Active)
        && (r.Done? ==> Covered(Select(old(store)[id].strips, offset, size, true), freed))
    {
      freed, put := {}, None;
      var found := LoadActive(id);
      if found.Refused? { return found, put, freed; }
      r, put, freed := DropStrips(id, found.chunk, offset, size);
    }

    /** Frees the blocks of the strips the range hits and puts the record without them. */
    method DropStrips(id: Id, record: Chunk, offset: nat, size: nat)
      returns (r: Reply, put: Option<Chunk>, freed: set<Segment>)
      requires Valid() && id in store && record == store[id] && record.state == Active && (locks ==> id in cache)
      modifies this
      ensures Forward(old(store), store)
      ensures Valid() <==> (put.Some? || freed == {}) && Right(id)
      ensures Right(id) <==> r.Done? || put == None || !locks || SameRecord(old(store), id, put)
      ensures steady ==> Valid()
      ensures store == Stored(old(store), id, put) && (r.Done? ==> put == Some(r.chunk))
      ensures put.Some? ==>
        put.value == record.(strips := Select(record.strips, offset, size, false), capacity := put.value.capacity)
      ensures Among(freed, Select(record.strips, offset, size, true)) && Held() == old(Held()) - freed
      ensures r.Refused? ==> r.error == StorageFailed && failures > old(failures)
      ensures failures >= old(failures)
      ensures failures == old(failures) ==> r.Done? && Covered(Select(record.strips, offset, size, true), freed)
    {
      var chunk := record;
      assert LiveIn(store, id);
      var remove, keep := Select(chunk.strips, offset, size, true), Select(chunk.strips, offset, size, false);
      forall b ensures Count(chunk.strips, b) == Count(remove, b) + Count(keep, b) {
        SelectSplits(chunk.strips, offset, size, b);
      }
      PartFits(store, Held(), id, keep, remove, {});
      freed := FreeStrips(remove);
      PartFits(store, old(Held()), id, keep, remove, freed);
      FreeOwn(store, old(Held()), id, freed);
      chunk := chunk.(strips := keep, capacity := Capacity(keep));
      PutForwardIff(store, id, chunk);
      var ok;
      ok, put := Persist(id, chunk, true, old(Held()));
      r := if ok then Done(chunk) else Refused(StorageFailed);
    }

    /** Frees the blocks of a strip and commits those of the one to take its place. */
    method SwapBlocks(id: Id, index: nat, strip: Strip) returns (freed: set<Segment>, kept: set<Segment>)
      requires Valid() && LiveIn(store, id) && index < |store[id].strips|
      modifies this`tentative, this`committed, this`named, this`failures
      ensures failures >= old(failures)
      ensures failures == old(failures) ==>
        Covered([store[id].strips[index]], freed) && AllOf(kept, [strip], old(tentative) - freed)
      ensures Held() == old(Held()) - freed && kept <= old(tentative) && tentative !! committed
      ensures Among(freed, store[id].strips) && OthersHeld(store, Held(), id)
      ensures Sound(store, Held()) <==> freed == {}
      ensures NamedOrIn(committed, named, store[id].strips[index := strip])
      ensures freed == {} ==> (Ledger() <==> kept <= old(named))
      ensures Unclaimed(store, old(Held()), strip) ==> Fits(store, Held(), id, store[id].strips[index := strip])
    {
      OneStrip(store, Held(), id, index, {});
      freed := FreeStrips([store[id].strips[index]]);
      OneStrip(store, old(Held()), id, index, freed);
      kept := CommitStrips([strip]);
      if Unclaimed(store, old(Held()), strip) {
        UnclaimedFits(store, old(Held()), id, index, freed, strip);
      }
      NewStripNamed(store[id].strips, index, strip, kept);
      NamedAfter(old(committed), old(named), freed, kept, store[id].strips[index := strip]);
    }

    /** Replaces one strip: frees the old strip's blocks, commits the new one's, then
        puts. */
    method UpdateStrip(id: Id, index: nat, strip: Strip)
      returns (r: Reply, put: Option<Chunk>, freed: set<Segment>, kept: set<Segment>)
      requires Valid()
      modifies this
      ensures Forward(old(store), store)
      ensures store == Stored(old(store), id, put) && (r.Done? ==> put == Some(r.chunk))
      ensures put == None ==> (Valid() <==> freed == {} && kept <= old(named))
      ensures put.Some? ==>
        && id in old(store) && old(store)[id].state in {Active, Sealed} && index < |old(store)[id].strips|
        && put.value == old(store)[id].(strips := old(store)[id].strips[index := strip], capacity := put.value.capacity)
        && put.value.capacity == Capacity(put.value.strips)
        && (Valid() <==> Fits(old(store), old(Held()) - freed, id, put.value.strips) && Right(id))
      ensures Right(id) <==> r.Done? || put == None || !locks || SameRecord(old(store), id, put)
      ensures (put.Some? || steady) && Unclaimed(old(store), old(Held()), strip) ==> (Valid() <==> Right(id))
      ensures steady ==> Right(id)
      ensures Held() == old(Held()) - freed && kept <= old(tentative)
      ensures freed != {} ==> LiveIn(old(store), id) && Among(freed, old(store)[id].strips)
      ensures failures >= old(failures)
      ensures r.Refused? ==> r.error in {NotFound, InvalidState, IndexOutOfRange, StorageFailed}
      ensures r.Refused? && r.error != StorageFailed ==> put == None && freed == {} && kept == {}
      ensures r.Refused? && r.error == NotFound ==> id !in old(store)
      ensures r.Refused? && r.error == InvalidState ==> id in old(store) && old(store)[id].state !in {Active, Sealed}
      ensures r.Refused? && r.error == IndexOutOfRange ==> id in old(store) && index >= |old(store)[id].strips|
      ensures r.Refused? && r.error == StorageFailed ==> failures > old(failures)
      ensures failures == old(failures) ==>
        && (r.Done? <==>
              id in old(store) && old(store)[id].state in {Active, Sealed} && index < |old(store)[id].strips|)
        && (r.Done? ==> Covered([old(store)[id].strips[index]], freed) && AllOf(kept, [strip], old(tentative) - freed))
    {
      freed, kept, put := {}, {}, None;
      var found := LoadStrip(id, index);
      if found.Refused? { return found, put, freed, kept; }
      var chunk := found.chunk;
      assert LiveIn(store, id);
      freed, kept := SwapBlocks(id, index, strip);
      chunk := chunk.(strips := chunk.strips[index := strip], capacity := Capacity(chunk.strips[index := strip]));
      PutForwardIff(store, id, chunk);
      var ok;
      ok, put := Persist(id, chunk, true, old(Held()));
      r := if ok then Done(chunk) else Refused(StorageFailed);
    }

    // ---- Whole runs --------------------------------------------------

    /** One request. A generated id is new, a strip update comes with blocks granted
        for it. `torn` says that a put failed after blocks of its record were freed, or
        blocks it was to name were committed, or that a put was applied and reported an
        error, and the cache was left with the old record. A request with no failing call
        is performed. */
    method Handle(q: Request) returns (torn: bool)
      requires Valid() && locks
      modifies this
      ensures Valid() <==> !torn
      ensures Forward(old(store), store) && OnlyAt(old(store), store, q.id)
      ensures steady || q.Create? || q.Generate? ==> !torn
      ensures failures >= old(failures) && (torn ==> failures > old(failures))
      ensures failures == old(failures) ==> Performed(q, old(store), store)
      ensures torn ==> store.Keys == old(store).Keys
      ensures Ordered(old(store)) && !q.Rewrites() ==> Ordered(store)
    {
      match q {
        case Create(id, count) =>
          HandleAllocate(true, id, count);
          torn := false;
        case Generate(id, count) =>
          if id !in store { HandleAllocate(false, id, count); }
          torn := false;
        case Extend(id, count) => torn := HandleAppend(id, count);
        case Close(id, length) => torn := HandleSeal(id, length);
        case Drop(id) => torn := HandleDelete(id);
        case DropRange(id, offset, size) => torn := HandleDeleteRange(id, offset, size);
        case Replace(id, index, sequence) => torn := HandleReplace(id, index, sequence);
      }
    }

    method HandleAllocate(given: bool, id: Id, count: nat)
      requires Valid() && locks && (!given ==> id !in store)
      modifies this
      ensures Valid() && Forward(old(store), store) && OnlyAt(old(store), store, id)
      ensures failures >= old(failures) && (failures == old(failures) ==> Created(old(store), store, id, count))
      ensures Ordered(old(store)) ==> Ordered(store)
    {
      var _, _ := Allocate(given, id, count);
    }

    method HandleAppend(id: Id, count: nat) returns (torn: bool)
      requires Valid() && locks
      modifies this
      ensures Valid() <==> !torn
      ensures Forward(old(store), store) && OnlyAt(old(store), store, id) && store.Keys == old(store).Keys
      ensures steady ==> !torn
      ensures failures >= old(failures) && (torn ==> failures > old(failures))
      ensures failures == old(failures) ==> Extended(old(store), store, id, count)
      ensures Ordered(old(store)) ==> Ordered(store)
    {
      var before := store;
      var r, put := Append(id, count);
      torn := r.Refused? && put.Some? && !SameRecord(before, id, put);
    }

    method HandleSeal(id: Id, length: nat) returns (torn: bool)
      requires Valid() && locks
      modifies this
      ensures Valid() <==> !torn
      ensures Forward(old(store), store) && OnlyAt(old(store), store, id) && store.Keys == old(store).Keys
      ensures steady ==> !torn
      ensures failures >= old(failures) && (torn ==> failures > old(failures))
      ensures failures == old(failures) ==> Closed(old(store), store, id, length)
      ensures Ordered(old(store)) ==> Ordered(store)
    {
      var before := store;
      var r, put := Seal(id, length);
      torn := r.Refused? && put.Some? && !SameRecord(before, id, put);
    }

    method HandleDelete(id: Id) returns (torn: bool)
      requires Valid() && locks
      modifies this
      ensures Valid() <==> !torn
      ensures Forward(old(store), store) && OnlyAt(old(store), store, id) && store.Keys == old(store).Keys
      ensures steady ==> !torn
      ensures failures >= old(failures) && (torn ==> failures > old(failures))
      ensures failures == old(failures) ==> Dropped(old(store), store, id)
      ensures Ordered(old(store)) ==> Ordered(store)
    {
      var r, put, freed := Delete(id);
      torn := r.Refused? && (put.Some? || freed != {});
    }

    method HandleDeleteRange(id: Id, offset: nat, size: nat) returns (torn: bool)
      requires Valid() && locks
      modifies this
      ensures Valid() <==> !torn
      ensures Forward(old(store), store) && OnlyAt(old(store), store, id) && store.Keys == old(store).Keys
      ensures steady ==> !torn
      ensures failures >= old(failures) && (torn ==> failures > old(failures))
      ensures failures == old(failures) ==> RangeDropped(old(store), store, id, offset, size)
    {
      var before := store;
      var r, put, freed := DeleteRange(id, offset, size);
      torn := r.Refused? && if put.Some? then !SameRecord(before, id, put) else freed != {};
    }

    method HandleReplace(id: Id, index: nat, sequence: nat) returns (torn: bool)
      requires Valid() && locks
      modifies this
      ensures Valid() <==> !torn
      ensures Forward(old(store), store) && OnlyAt(old(store), store, id) && store.Keys == old(store).Keys
      ensures steady ==> !torn
      ensures failures >= old(failures) && (torn ==> failures > old(failures))
      ensures failures == old(failures) ==> Replaced(old(store), store, id, index, sequence)
    {
      var ok, strip := AllocateStrip(sequence);
      HeldGrows(store, old(Held()), Held());
      if !ok { return false; }
      GrantIsUnclaimed(store, old(Held()), Held(), strip);
      torn := ReplaceWith(id, index, strip);
    }

    /** Replaces a strip by one whose blocks were granted for it. */
    method ReplaceWith(id: Id, index: nat, strip: Strip) returns (torn: bool)
      requires Valid() && locks && Unclaimed(store, Held(), strip) && strip.offset == 0
      modifies this
      ensures Valid() <==> !torn
      ensures Forward(old(store), store) && OnlyAt(old(store), store, id) && store.Keys == old(store).Keys
      ensures steady ==> !torn
      ensures failures >= old(failures) && (torn ==> failures > old(failures))
      ensures failures == old(failures) ==> Replaced(old(store), store, id, index, strip.sequence)
    {
      var before, records := named, store;
      var r, put, freed, kept := UpdateStrip(id, index, strip);
      torn := r.Refused? && if put.Some? then !SameRecord(records, id, put) else freed != {} || !(kept <= before);
    }

    /** The next request of a run that began with the records `first`; `stores` are the
        records before and after each request so far. */
    method HandleNext(requests: seq<Request>, n: nat, ghost first: map<Id, Chunk>, ghost stores: seq<map<Id, Chunk>>)
      returns (torn: bool)
      requires Valid() && locks && n < |requests| && Forward(first, store) && KeepsOrder(requests, first, store)
      requires EachOnlyAt(requests[..n], stores) && stores[n] == store
      modifies this
      ensures Valid() <==> !torn
      ensures Forward(first, store) && KeepsOrder(requests, first, store)
      ensures failures >= old(failures) && (torn ==> failures > old(failures))
      ensures torn ==> !steady && !requests[n].Create? && !requests[n].Generate?
      ensures EachOnlyAt(requests[..n + 1], stores + [store])
      ensures failures == old(failures) && EachPerformed(requests[..n], stores) ==>
        EachPerformed(requests[..n + 1], stores + [store])
    {
      torn := Handle(requests[n]);
      ForwardTransitive(first, old(store), store);
      OneMore(requests, n, stores, store);
    }

    /** Over every run, up to the first torn request: no two live records share a block,
        none names a free block, cached records are the stored ones, states only move
        forward and deleted records stay as they are. Without range deletes and strip
        updates, strips stay numbered in order. `stores` are the records before and after
        each request served; each changes at most the record it names, and when no call
        fails each is performed. */
    method Serve(requests: seq<Request>) returns (served: nat, torn: bool, ghost stores: seq<map<Id, Chunk>>)
      requires Valid() && locks
      modifies this
      ensures served <= |requests| && (served == |requests| || torn)
      ensures Valid() <==> !torn
      ensures failures >= old(failures) && (torn ==> failures > old(failures))
      ensures torn ==> served > 0 && !steady && !requests[served - 1].Create? && !requests[served - 1].Generate?
      ensures Forward(old(store), store) && KeepsOrder(requests, old(store), store)
      ensures |stores| == served + 1 && stores[0] == old(store) && stores[served] == store
      ensures EachOnlyAt(requests[..served], stores)
      ensures failures == old(failures) ==> EachPerformed(requests[..served], stores)
    {
      served, torn, stores := 0, false, [store];
      while served < |requests|
        invariant failures >= old(failures)
        invariant served <= |requests| && !torn && Valid()
        invariant Forward(old(store), store) && KeepsOrder(requests, old(store), store)
        invariant |stores| == served + 1 && stores[0] == old(store) && stores[served] == store
        invariant EachOnlyAt(requests[..served], stores)
        invariant failures == old(failures) ==> EachPerformed(requests[..served], stores)
      {
        torn := HandleNext(requests, served, old(store), stores);
        stores := stores + [store];
        served := served + 1;
        if torn { return; }
      }
    }
  }
}
