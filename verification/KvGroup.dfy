/** A KV group: an ordered map of byte keys with paged prefix scans.  Every
call may fail; a put or delete that reports failure may or may not have been
applied. */
module KvGroup {
  import opened ChunkKey
  import opened Lexical
  import opened Paging

  predicate HasPrefix(key: Bytes, prefix: Bytes) {
    prefix <= key
  }

  predicate KeyLess(a: Bytes, b: Bytes) {
    LexLess(a, b)
  }

  /** The keys a scan with this cursor is to visit. */
  function After<V>(data: map<Bytes, V>, prefix: Bytes, cursor: Bytes): set<Bytes> {
    set k | k in data && HasPrefix(k, prefix) && LexLess(cursor, k)
  }

  /** `items` is a page of the scan with this prefix and cursor. */
  ghost predicate IsScanPage<V>(items: seq<(Bytes, V)>, truncated: bool, data: map<Bytes, V>, prefix: Bytes,
                                cursor: Bytes)
  {
    Paging.IsPage(items, truncated, data, After(data, prefix, cursor), KeyLess)
  }

  /** The least key of a set. */
  method Least(keys: set<Bytes>) returns (k: Bytes)
    requires keys != {}
    ensures k in keys && forall j :: j in keys && j != k ==> LexLess(k, j)
  {
    k :| k in keys;
    var rest := keys - {k};
    while rest != {}
      invariant k in keys && rest <= keys
      invariant forall j :: j in keys && j !in rest && j != k ==> LexLess(k, j)
      decreases |rest|
    {
      var j :| j in rest;
      LexTotal(k, j);
      if LexLess(j, k) {
        forall i | i in keys && i !in rest && i != k ensures LexLess(j, i) { LexTransitive(j, k, i); }
        k := j;
      }
      rest := rest - {j};
    }
  }

  /** A page under way: the keys of `all` not in `rest` have been taken, in order. */
  ghost predicate Taken<V>(items: seq<(Bytes, V)>, all: set<Bytes>, rest: set<Bytes>, data: map<Bytes, V>) {
    && rest <= all
    && (forall i :: 0 <= i < |items| ==> items[i].0 in all && items[i].0 in data && data[items[i].0] == items[i].1)
    && (forall i, j :: 0 <= i < j < |items| ==> LexLess(items[i].0, items[j].0))
    && (forall i, k :: 0 <= i < |items| && k in rest ==> LexLess(items[i].0, k))
    && (forall k :: k in all && k !in rest ==> Listed(items, k))
  }

  lemma TakeNext<V>(items: seq<(Bytes, V)>, all: set<Bytes>, rest: set<Bytes>, data: map<Bytes, V>, k: Bytes)
    requires Taken(items, all, rest, data) && k in rest && k in data
    requires forall j :: j in rest && j != k ==> LexLess(k, j)
    ensures Taken(items + [(k, data[k])], all, rest - {k}, data)
  {
    var items' := items + [(k, data[k])];
    forall j | j in all && j !in rest - {k} ensures Listed(items', j) {
      if j == k {
        assert items'[|items|].0 == j;
      } else {
        var i :| 0 <= i < |items| && items[i].0 == j;
        assert items'[i].0 == j;
      }
    }
  }

  class Group<V> {
    /** Whether every call succeeds. */
    const reliable: bool
    var data: map<Bytes, V>

    constructor (reliable: bool)
      ensures data == map[] && this.reliable == reliable
    {
      this.reliable := reliable;
      data := map[];
    }

    method Put(key: Bytes, value: V) returns (ok: bool)
      modifies this
      ensures data == old(data)[key := value] || (!ok && data == old(data))
      ensures reliable ==> ok
    {
      ok := *;
      if !ok && !reliable { return; }  // never reached the group
      data := data[key := value];
      ok := *;
      ok := ok || reliable;  // applied, the answer may be lost
    }

    method Delete(key: Bytes) returns (ok: bool)
      modifies this
      ensures data == old(data) - {key} || (!ok && data == old(data))
      ensures reliable ==> ok
    {
      ok := *;
      if !ok && !reliable { return; }
      data := data - {key};
      ok := *;
      ok := ok || reliable;
    }

    /** One page of at most `limit` items. */
    method Scan(prefix: Bytes, cursor: Bytes, limit: nat) returns (ok: bool, items: seq<(Bytes, V)>, truncated: bool)
      requires limit > 0
      ensures ok ==> IsScanPage(items, truncated, data, prefix, cursor) && |items| <= limit
      ensures ok && truncated ==> |items| == limit
      ensures ok ==> forall i :: 0 <= i < |items| ==>
        && prefix <= items[i].0 && LexLess(cursor, items[i].0)
        && items[i].0 in data && data[items[i].0] == items[i].1
      ensures ok && !truncated ==> forall k :: k in data && prefix <= k && LexLess(cursor, k) ==> Listed(items, k)
      ensures reliable ==> ok
    {
      items, truncated := [], false;
      ok := *;
      if !ok && !reliable { return; }
      ghost var all := After(data, prefix, cursor);
      var rest := After(data, prefix, cursor);
      while rest != {} && |items| < limit
        invariant Taken(items, all, rest, data) && (items == [] ==> rest == all) && |items| <= limit
        decreases |rest|
      {
        var k := Least(rest);
        TakeNext(items, all, rest, data, k);
        items, rest := items + [(k, data[k])], rest - {k};
      }
      ok, truncated := true, rest != {};
    }
  }
}
