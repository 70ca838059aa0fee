/** The migration task: page through the old group and copy the in-range
chunks to the new one; later page through it again and delete them. */
module Migration {
  import opened ChunkKey
  import opened KvGroup
  import opened Lexical
  import opened Options

  datatype Range = Range(start: nat, end: nat)

  const BATCH_SIZE := 100

  /** The test both phases apply to a key. */
  predicate InRange(hash: ChunkId -> nat, r: Range, key: Bytes) {
    match KeyToChunkId(key)
    case None => false
    case Some(id) => r.start <= hash(id) < r.end
  }

  /** The test agrees with the routing of the chunk, and skips other keys. */
  lemma InRangeIsRouting(hash: ChunkId -> nat, r: Range, key: Bytes)
    ensures InRange(hash, r, key) <==> exists id :: key == ChunkKeyOf(id) && r.start <= hash(id) < r.end
  {
    if InRange(hash, r, key) {
      ParsedKeyIsKeyOfId(key);
      assert key == ChunkKeyOf(KeyToChunkId(key).value);
    }
    forall id | key == ChunkKeyOf(id) ensures KeyToChunkId(key) == Some(id) { KeyOfIdParses(id); }
  }

  /** The records to move. */
  function Moved<V>(data: map<Bytes, V>, hash: ChunkId -> nat, r: Range): map<Bytes, V> {
    map k | k in data && InRange(hash, r, k) :: data[k]
  }

  function Kept<V>(data: map<Bytes, V>, hash: ChunkId -> nat, r: Range): map<Bytes, V> {
    map k | k in data && !InRange(hash, r, k) :: data[k]
  }

  /** `now` is `before` with some of `moved` written over it. */
  ghost predicate PartlyCopied<V>(before: map<Bytes, V>, now: map<Bytes, V>, moved: map<Bytes, V>) {
    && (forall k :: k in before ==> k in now)
    && (forall k :: k in now ==>
          (k in before && now[k] == before[k]) || (k in moved && now[k] == moved[k]))
  }

  predicate UpTo(k: Bytes, cursor: Bytes) {
    k == cursor || LexLess(k, cursor)
  }

  /** A page moves the cursor to its last key and leaves out no key before it. */
  lemma PageCovers<V>(items: seq<(Bytes, V)>, truncated: bool, data: map<Bytes, V>, cursor: Bytes, k: Bytes)
    requires IsScanPage(items, truncated, data, Prefix, cursor) && items != []
    requires k in data && HasPrefix(k, Prefix)
    ensures UpTo(k, items[|items| - 1].0) || !truncated ==>
      UpTo(k, cursor) || exists i :: 0 <= i < |items| && items[i].0 == k
    ensures UpTo(k, cursor) ==> UpTo(k, items[|items| - 1].0)
  {
    var last := items[|items| - 1].0;
    LexTotal(cursor, k);
    assert !UpTo(k, cursor) ==> k in After(data, Prefix, cursor);
    if UpTo(k, last) && LexLess(last, k) {
      if LexLess(k, last) { LexTransitive(k, last, k); }
      LexIrreflexive(k);
      assert false;
    }
    if UpTo(k, cursor) && k != cursor { LexTransitive(k, cursor, last); }
  }

  lemma CursorAdvances<V>(data: map<Bytes, V>, cursor: Bytes, last: Bytes)
    requires last in After(data, Prefix, cursor)
    ensures After(data, Prefix, last) < After(data, Prefix, cursor)
  {
    LexIrreflexive(last);
    forall k | k in After(data, Prefix, last) ensures k in After(data, Prefix, cursor) {
      LexTransitive(cursor, last, k);
    }
    assert last !in After(data, Prefix, last);
  }

  lemma SmallerSet<T>(a: set<T>, b: set<T>)
    requires a < b
    ensures |a| < |b|
  {
    var x :| x in b && x !in a;
    SubsetCard(a, b - {x});
  }

  lemma {:induction false} SubsetCard<T>(a: set<T>, b: set<T>)
    requires a <= b
    ensures |a| <= |b|
    decreases |a|
  {
    if a != {} {
      var x :| x in a;
      SubsetCard(a - {x}, b - {x});
    }
  }

  /** The new group holds this moved record. */
  ghost predicate Arrived<V>(dst: map<Bytes, V>, moved: map<Bytes, V>, k: Bytes) {
    k in moved ==> k in dst && dst[k] == moved[k]
  }

  ghost predicate Advanced<V>(before: map<Bytes, V>, now: map<Bytes, V>, moved: map<Bytes, V>) {
    forall k :: Arrived(before, moved, k) ==> Arrived(now, moved, k)
  }

  /** A put of a moved record, applied or not. */
  lemma PutAdvances<V>(base: map<Bytes, V>, before: map<Bytes, V>, now: map<Bytes, V>, moved: map<Bytes, V>, k: Bytes,
                       v: V)
    requires PartlyCopied(base, before, moved) && k in moved && moved[k] == v
    requires now == before[k := v] || now == before
    ensures PartlyCopied(base, now, moved) && Advanced(before, now, moved)
    ensures now == before[k := v] ==> Arrived(now, moved, k)
  {}

  /** Copies the in-range items of one page, stopping at the first failed put. */
  method CopyPage<V>(dst: Group<V>, items: seq<(Bytes, V)>, hash: ChunkId -> nat, r: Range,
                     ghost data: map<Bytes, V>, ghost base: map<Bytes, V>)
    returns (ok: bool, cursor: Bytes)
    requires items != [] && forall i :: 0 <= i < |items| ==> items[i].0 in data && data[items[i].0] == items[i].1
    requires PartlyCopied(base, dst.data, Moved(data, hash, r))
    modifies dst
    ensures PartlyCopied(base, dst.data, Moved(data, hash, r))
    ensures Advanced(old(dst.data), dst.data, Moved(data, hash, r))
    ensures ok ==> cursor == items[|items| - 1].0
    ensures dst.reliable ==> ok
    ensures ok ==> forall j :: 0 <= j < |items| ==> Arrived(dst.data, Moved(data, hash, r), items[j].0)
  {
    ghost var moved := Moved(data, hash, r);
    cursor := [];
    for i := 0 to |items|
      invariant PartlyCopied(base, dst.data, moved) && Advanced(old(dst.data), dst.data, moved)
      invariant i > 0 ==> cursor == items[i - 1].0
      invariant forall j :: 0 <= j < i ==> Arrived(dst.data, moved, items[j].0)
    {
      cursor := items[i].0;
      if InRange(hash, r, items[i].0) {
        ghost var before := dst.data;
        var put := dst.Put(items[i].0, items[i].1);
        PutAdvances(base, before, dst.data, moved, items[i].0, items[i].1);
        if !put { return false, cursor; }
      }
    }
    ok := true;
  }

  ghost predicate ArrivedUpTo<V>(dst: map<Bytes, V>, moved: map<Bytes, V>, cursor: Bytes) {
    forall k :: UpTo(k, cursor) ==> Arrived(dst, moved, k)
  }

  lemma PageArrived<V>(items: seq<(Bytes, V)>, truncated: bool, data: map<Bytes, V>, hash: ChunkId -> nat, r: Range,
                       cursor: Bytes, before: map<Bytes, V>, now: map<Bytes, V>)
    requires IsScanPage(items, truncated, data, Prefix, cursor) && items != []
    requires ArrivedUpTo(before, Moved(data, hash, r), cursor) && Advanced(before, now, Moved(data, hash, r))
    requires forall j :: 0 <= j < |items| ==> Arrived(now, Moved(data, hash, r), items[j].0)
    ensures ArrivedUpTo(now, Moved(data, hash, r), items[|items| - 1].0)
    ensures !truncated ==> forall k :: Arrived(now, Moved(data, hash, r), k)
  {
    var moved := Moved(data, hash, r);
    forall k | UpTo(k, items[|items| - 1].0) || !truncated ensures Arrived(now, moved, k) {
      if k in moved { PageCovers(items, truncated, data, cursor, k); }
    }
  }

  lemma AllArrived<V>(base: map<Bytes, V>, now: map<Bytes, V>, moved: map<Bytes, V>)
    requires PartlyCopied(base, now, moved) && forall k :: Arrived(now, moved, k)
    ensures now == base + moved
  {
    forall k | k in moved ensures k in now && now[k] == moved[k] {
      assert Arrived(now, moved, k);
    }
  }

  method CopyPhase<V>(src: Group<V>, dst: Group<V>, hash: ChunkId -> nat, r: Range) returns (ok: bool)
    requires src != dst
    modifies dst
    ensures PartlyCopied(old(dst.data), dst.data, Moved(src.data, hash, r))
    ensures ok ==> dst.data == old(dst.data) + Moved(src.data, hash, r)
    ensures src.reliable && dst.reliable ==> ok
  {
    ghost var moved := Moved(src.data, hash, r);
    var cursor: Bytes := [];
    while true
      invariant PartlyCopied(old(dst.data), dst.data, moved) && ArrivedUpTo(dst.data, moved, cursor)
      decreases |After(src.data, Prefix, cursor)|
    {
      var scanned, items, truncated := src.Scan(Prefix, cursor, BATCH_SIZE);
      if !scanned { return false; }
      if items == [] {
        NoneLeft(src.data, hash, r, cursor);
        AllArrived(old(dst.data), dst.data, moved);
        return true;
      }
      ghost var before, start := cursor, dst.data;
      ok, cursor := CopyPage(dst, items, hash, r, src.data, old(dst.data));
      if !ok { return false; }
      PageArrived(items, truncated, src.data, hash, r, before, start, dst.data);
      if !truncated {
        AllArrived(old(dst.data), dst.data, moved);
        return true;
      }
      CursorMoves(src.data, before, cursor);
    }
  }

  lemma CursorMoves<V>(data: map<Bytes, V>, cursor: Bytes, last: Bytes)
    requires last in After(data, Prefix, cursor)
    ensures |After(data, Prefix, last)| < |After(data, Prefix, cursor)|
  {
    CursorAdvances(data, cursor, last);
    SmallerSet(After(data, Prefix, last), After(data, Prefix, cursor));
  }

  lemma NoneLeft<V>(data: map<Bytes, V>, hash: ChunkId -> nat, r: Range, cursor: Bytes)
    requires After(data, Prefix, cursor) == {}
    ensures forall k :: k in data && InRange(hash, r, k) ==> UpTo(k, cursor)
  {
    forall k | k in data && InRange(hash, r, k) ensures UpTo(k, cursor) {
      assert k !in After(data, Prefix, cursor);
      LexTotal(cursor, k);
    }
  }

  /** `now` is `before` less some in-range records. */
  ghost predicate PartlyCleaned<V>(before: map<Bytes, V>, now: map<Bytes, V>, hash: ChunkId -> nat, r: Range) {
    && (forall k :: k in now ==> k in before && now[k] == before[k])
    && (forall k :: k in before && !InRange(hash, r, k) ==> k in now)
  }

  /** No in-range record up to the cursor is left. */
  ghost predicate CleanedUpTo<V>(now: map<Bytes, V>, hash: ChunkId -> nat, r: Range, cursor: Bytes) {
    forall k :: k in now && InRange(hash, r, k) ==> !UpTo(k, cursor)
  }

  /** No in-range item among these is left. */
  ghost predicate NoneListed<V>(now: map<Bytes, V>, items: seq<(Bytes, V)>, hash: ChunkId -> nat, r: Range) {
    forall j :: 0 <= j < |items| && InRange(hash, r, items[j].0) ==> items[j].0 !in now
  }

  /** A delete of an in-range record, applied or not. */
  lemma DeleteAdvances<V>(base: map<Bytes, V>, before: map<Bytes, V>, now: map<Bytes, V>, hash: ChunkId -> nat,
                          r: Range, k: Bytes)
    requires PartlyCleaned(base, before, hash, r) && InRange(hash, r, k)
    requires now == before - {k} || now == before
    ensures PartlyCleaned(base, now, hash, r) && now.Keys <= before.Keys
  {}

  lemma ListedNext<V>(before: map<Bytes, V>, now: map<Bytes, V>, items: seq<(Bytes, V)>, i: nat, hash: ChunkId -> nat,
                      r: Range)
    requires i < |items| && NoneListed(before, items[..i], hash, r) && now.Keys <= before.Keys
    requires InRange(hash, r, items[i].0) ==> items[i].0 !in now
    ensures NoneListed(now, items[..i + 1], hash, r)
  {
    forall j | 0 <= j < i && InRange(hash, r, items[j].0) ensures items[j].0 !in now {
      assert items[..i][j] == items[j];
      assert items[j].0 !in before.Keys;
    }
  }

  /** Deletes the in-range items of one page; failed deletes are counted and skipped. */
  method CleanPage<V>(src: Group<V>, items: seq<(Bytes, V)>, hash: ChunkId -> nat, r: Range, ghost base: map<Bytes, V>)
    returns (cursor: Bytes, failed: nat)
    requires items != [] && PartlyCleaned(base, src.data, hash, r)
    modifies src
    ensures PartlyCleaned(base, src.data, hash, r) && src.data.Keys <= old(src.data).Keys
    ensures cursor == items[|items| - 1].0
    ensures failed == 0 ==> NoneListed(src.data, items, hash, r)
    ensures src.reliable ==> failed == 0
  {
    cursor, failed := [], 0;
    for i := 0 to |items|
      invariant PartlyCleaned(base, src.data, hash, r) && src.data.Keys <= old(src.data).Keys
      invariant i > 0 ==> cursor == items[i - 1].0
      invariant failed == 0 ==> NoneListed(src.data, items[..i], hash, r)
      invariant src.reliable ==> failed == 0
    {
      cursor := items[i].0;
      ghost var before := src.data;
      if InRange(hash, r, items[i].0) {
        var deleted := src.Delete(items[i].0);
        DeleteAdvances(base, before, src.data, hash, r, items[i].0);
        if !deleted { failed := failed + 1; }
      }
      if failed == 0 { ListedNext(before, src.data, items, i, hash, r); }
    }
    assert items[..|items|] == items;
  }

  lemma PageCleaned<V>(items: seq<(Bytes, V)>, truncated: bool, data: map<Bytes, V>, hash: ChunkId -> nat, r: Range,
                       cursor: Bytes, now: map<Bytes, V>)
    requires IsScanPage(items, truncated, data, Prefix, cursor) && items != [] && now.Keys <= data.Keys
    requires CleanedUpTo(data, hash, r, cursor)
    requires NoneListed(now, items, hash, r)
    ensures CleanedUpTo(now, hash, r, items[|items| - 1].0)
    ensures !truncated ==> forall k :: k in now ==> !InRange(hash, r, k)
  {
    forall k | k in now && InRange(hash, r, k) ensures !UpTo(k, items[|items| - 1].0) && truncated {
      PageCovers(items, truncated, data, cursor, k);
    }
  }

  lemma AllCleaned<V>(base: map<Bytes, V>, now: map<Bytes, V>, hash: ChunkId -> nat, r: Range)
    requires PartlyCleaned(base, now, hash, r) && forall k :: k in now ==> !InRange(hash, r, k)
    ensures now == Kept(base, hash, r)
  {}

  method CleanupPhase<V>(src: Group<V>, hash: ChunkId -> nat, r: Range) returns (ok: bool, failed: nat)
    modifies src
    ensures PartlyCleaned(old(src.data), src.data, hash, r)
    ensures ok && failed == 0 ==> src.data == Kept(old(src.data), hash, r)
    ensures src.reliable ==> ok && failed == 0
  {
    failed := 0;
    var cursor: Bytes := [];
    while true
      invariant PartlyCleaned(old(src.data), src.data, hash, r)
      invariant failed == 0 ==> CleanedUpTo(src.data, hash, r, cursor)
      invariant src.reliable ==> failed == 0
      decreases |After(src.data, Prefix, cursor)|
    {
      var scanned, items, truncated := src.Scan(Prefix, cursor, BATCH_SIZE);
      if !scanned { return false, failed; }
      if items == [] {
        NoneLeft(src.data, hash, r, cursor);
        if failed == 0 { AllCleaned(old(src.data), src.data, hash, r); }
        return true, failed;
      }
      ghost var before, start := cursor, src.data;
      var more;
      cursor, more := CleanPage(src, items, hash, r, old(src.data));
      failed := failed + more;
      if failed == 0 {
        PageCleaned(items, truncated, start, hash, r, before, src.data);
        if !truncated { AllCleaned(old(src.data), src.data, hash, r); }
      }
      if !truncated { return true, failed; }
      CursorMoves(start, before, cursor);
      SubsetCard(After(src.data, Prefix, cursor), After(start, Prefix, cursor));
    }
  }

  /** Key by key: a record of the old group whose chunk hashes into the range is in the
      new group, with its value, and no longer in the old one; every other key is as it
      was in both. */
  ghost predicate ChangedHands<V>(src: map<Bytes, V>, src': map<Bytes, V>, dst: map<Bytes, V>, dst': map<Bytes, V>,
                                  hash: ChunkId -> nat, r: Range)
  {
    && (forall k :: k in src && InRange(hash, r, k) ==> k !in src' && k in dst' && dst'[k] == src[k])
    && (forall k :: k !in src || !InRange(hash, r, k) ==> Unmoved(src, src', k) && Unmoved(dst, dst', k))
  }

  ghost predicate Unmoved<V>(before: map<Bytes, V>, now: map<Bytes, V>, k: Bytes) {
    (k in now <==> k in before) && (k in before ==> now[k] == before[k])
  }

  /** With nothing else writing: the in-range records end up in the new group,
      with their values, and the old group keeps exactly the others. */
  method RunMigration<V>(src: Group<V>, dst: Group<V>, hash: ChunkId -> nat, r: Range) returns (ok: bool, failed: nat)
    requires src != dst
    modifies src, dst
    ensures PartlyCopied(old(dst.data), dst.data, Moved(old(src.data), hash, r))
    ensures PartlyCleaned(old(src.data), src.data, hash, r)
    ensures src.data != old(src.data) || ok ==> dst.data == old(dst.data) + Moved(old(src.data), hash, r)
    ensures ok && failed == 0 ==> src.data == Kept(old(src.data), hash, r)
    ensures ok && failed == 0 ==> ChangedHands(old(src.data), src.data, old(dst.data), dst.data, hash, r)
    ensures src.reliable && dst.reliable ==> ok && failed == 0
  {
    ok := CopyPhase(src, dst, hash, r);
    if !ok { return false, 0; }
    ok, failed := CleanupPhase(src, hash, r);
  }
}
