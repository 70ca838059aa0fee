/** Lists of entries with a key: sorting, collecting into a map, listing a map. */
module KeyedLists {

  ghost predicate StrictOrder<K(!new)>(less: (K, K) -> bool) {
    && (forall a, b :: less(a, b) ==> !less(b, a))
    && (forall a, b, c :: less(a, b) && less(b, c) ==> less(a, c))
    && (forall a, b :: a == b || less(a, b) || less(b, a))
  }

  ghost predicate UniqueKeys<E, K>(s: seq<E>, key: E -> K) {
    forall i, j :: 0 <= i < j < |s| ==> key(s[i]) != key(s[j])
  }

  ghost predicate Ordered<E, K>(s: seq<E>, key: E -> K, less: (K, K) -> bool) {
    forall i, j :: 0 <= i < j < |s| ==> !less(key(s[j]), key(s[i]))
  }

  /** Ordered with no key twice. */
  ghost predicate Ascending<E, K>(s: seq<E>, key: E -> K, less: (K, K) -> bool) {
    forall i, j :: 0 <= i < j < |s| ==> less(key(s[i]), key(s[j]))
  }

  ghost predicate SameEntries<E(!new)>(s: seq<E>, t: seq<E>) {
    forall e :: e in s <==> e in t
  }

  lemma OrderedUnique<E, K(!new)>(s: seq<E>, key: E -> K, less: (K, K) -> bool)
    requires StrictOrder(less) && Ordered(s, key, less) && UniqueKeys(s, key)
    ensures Ascending(s, key, less)
  {}

  /** An ascending list is determined by its entries. */
  lemma {:induction false} AscendingDetermined<E(!new), K(!new)>(s: seq<E>, t: seq<E>, key: E -> K,
                                                                less: (K, K) -> bool)
    requires StrictOrder(less) && Ascending(s, key, less) && Ascending(t, key, less) && SameEntries(s, t)
    ensures s == t
  {
    assert (s != [] ==> s[0] in s) && (t != [] ==> t[0] in t);
    if s != [] && t != [] {
      var s', t' := s[..|s| - 1], t[..|t| - 1];
      LastIsGreatest(s, t, key, less);
      forall e | e in s' ensures e in t' { DropLast(s, t, key, less, e); }
      forall e | e in t' ensures e in s' { DropLast(t, s, key, less, e); }
      AscendingDetermined(s', t', key, less);
      assert s == s' + [s[|s| - 1]] && t == t' + [t[|t| - 1]];
    }
  }

  lemma LastIsGreatest<E(!new), K(!new)>(s: seq<E>, t: seq<E>, key: E -> K, less: (K, K) -> bool)
    requires StrictOrder(less) && Ascending(s, key, less) && Ascending(t, key, less) && SameEntries(s, t)
    requires s != [] && t != []
    ensures s[|s| - 1] == t[|t| - 1]
  {
    var a, b := s[|s| - 1], t[|t| - 1];
    assert a in t && b in s;
    var i :| 0 <= i < |t| && t[i] == a;
    var j :| 0 <= j < |s| && s[j] == b;
    assert i < |t| - 1 ==> less(key(a), key(b));
    assert j < |s| - 1 ==> less(key(b), key(a));
  }

  lemma DropLast<E(!new), K(!new)>(s: seq<E>, t: seq<E>, key: E -> K, less: (K, K) -> bool, e: E)
    requires StrictOrder(less) && Ascending(s, key, less) && SameEntries(s, t) && s != [] && t != []
    requires s[|s| - 1] == t[|t| - 1] && e in s[..|s| - 1]
    ensures e in t[..|t| - 1]
  {
    var i :| 0 <= i < |s| - 1 && s[i] == e;
    assert s[i] in s && less(key(e), key(s[|s| - 1]));
    var j :| 0 <= j < |t| && t[j] == e;
    assert t[..|t| - 1][j] == e;
  }

  // ---- Sorting --------------------------------------------------------

  /** Behind every entry that is not greater. */
  function InsertBy<E, K>(s: seq<E>, e: E, key: E -> K, less: (K, K) -> bool): (r: seq<E>)
    ensures multiset(r) == multiset(s) + multiset{e}
  {
    if s == [] then [e]
    else
      var last := s[|s| - 1];
      assert s == s[..|s| - 1] + [last];
      if less(key(e), key(last)) then InsertBy(s[..|s| - 1], e, key, less) + [last] else s + [e]
  }

  /** Stable sort by key. */
  function SortBy<E, K>(s: seq<E>, key: E -> K, less: (K, K) -> bool): (r: seq<E>)
    ensures multiset(r) == multiset(s)
  {
    if s == [] then []
    else
      assert s == s[..|s| - 1] + [s[|s| - 1]];
      InsertBy(SortBy(s[..|s| - 1], key, less), s[|s| - 1], key, less)
  }

  lemma InsertMember<E, K>(s: seq<E>, e: E, key: E -> K, less: (K, K) -> bool, i: nat)
    requires i < |InsertBy(s, e, key, less)|
    ensures InsertBy(s, e, key, less)[i] == e || InsertBy(s, e, key, less)[i] in s
  {
    assert InsertBy(s, e, key, less)[i] in multiset(InsertBy(s, e, key, less));
  }

  lemma AppendOrdered<E, K>(s: seq<E>, e: E, key: E -> K, less: (K, K) -> bool)
    requires Ordered(s, key, less) && forall i :: 0 <= i < |s| ==> !less(key(e), key(s[i]))
    ensures Ordered(s + [e], key, less)
  {}

  lemma {:induction false} InsertKeepsOrder<E, K(!new)>(s: seq<E>, e: E, key: E -> K, less: (K, K) -> bool)
    requires StrictOrder(less) && Ordered(s, key, less)
    ensures Ordered(InsertBy(s, e, key, less), key, less)
  {
    var k := |s| - 1;
    if s != [] && less(key(e), key(s[k])) {
      InsertKeepsOrder(s[..k], e, key, less);
      var r := InsertBy(s[..k], e, key, less);
      forall i | 0 <= i < |r| ensures !less(key(s[k]), key(r[i])) { InsertMember(s[..k], e, key, less, i); }
      AppendOrdered(r, s[k], key, less);
    } else {
      forall i | 0 <= i < |s| ensures !less(key(e), key(s[i])) {
        assert i < k ==> !less(key(s[k]), key(s[i]));
      }
      AppendOrdered(s, e, key, less);
    }
  }

  lemma {:induction false} SortOrders<E, K(!new)>(s: seq<E>, key: E -> K, less: (K, K) -> bool)
    requires StrictOrder(less)
    ensures Ordered(SortBy(s, key, less), key, less)
  {
    if s != [] {
      SortOrders(s[..|s| - 1], key, less);
      InsertKeepsOrder(SortBy(s[..|s| - 1], key, less), s[|s| - 1], key, less);
    }
  }

  ghost predicate Has<E, K>(s: seq<E>, key: E -> K, k: K) {
    exists i :: 0 <= i < |s| && key(s[i]) == k
  }

  lemma AppendUnique<E, K>(s: seq<E>, e: E, key: E -> K)
    requires UniqueKeys(s, key) && forall i :: 0 <= i < |s| ==> key(s[i]) != key(e)
    ensures UniqueKeys(s + [e], key)
  {}

  lemma {:induction false} InsertKeepsUnique<E, K>(s: seq<E>, e: E, key: E -> K, less: (K, K) -> bool)
    requires UniqueKeys(s, key) && forall i :: 0 <= i < |s| ==> key(s[i]) != key(e)
    ensures UniqueKeys(InsertBy(s, e, key, less), key)
  {
    if s == [] {
      AppendUnique(s, e, key);
    } else if less(key(e), key(s[|s| - 1])) {
      var k := |s| - 1;
      InsertKeepsUnique(s[..k], e, key, less);
      var r := InsertBy(s[..k], e, key, less);
      forall i | 0 <= i < |r| ensures key(r[i]) != key(s[k]) { InsertMember(s[..k], e, key, less, i); }
      AppendUnique(r, s[k], key);
    } else {
      AppendUnique(s, e, key);
    }
  }

  lemma {:induction false} SortKeepsUnique<E, K>(s: seq<E>, key: E -> K, less: (K, K) -> bool)
    requires UniqueKeys(s, key)
    ensures UniqueKeys(SortBy(s, key, less), key)
  {
    if s != [] {
      var k, r := |s| - 1, SortBy(s[..|s| - 1], key, less);
      SortKeepsUnique(s[..k], key, less);
      forall i | 0 <= i < |r| ensures key(r[i]) != key(s[k]) {
        assert r[i] in multiset(r);
        assert r[i] in s[..k];
      }
      InsertKeepsUnique(r, s[k], key, less);
    }
  }

  /** Sorting a list with unique keys: ascending, and the same entries. */
  lemma SortAscends<E(!new), K(!new)>(s: seq<E>, key: E -> K, less: (K, K) -> bool)
    requires StrictOrder(less) && UniqueKeys(s, key)
    ensures Ascending(SortBy(s, key, less), key, less) && SameEntries(SortBy(s, key, less), s)
  {
    SortOrders(s, key, less);
    SortKeepsUnique(s, key, less);
    OrderedUnique(SortBy(s, key, less), key, less);
    SortSameEntries(s, key, less);
  }

  lemma SortSameEntries<E(!new), K>(s: seq<E>, key: E -> K, less: (K, K) -> bool)
    ensures SameEntries(SortBy(s, key, less), s)
  {
    var r := SortBy(s, key, less);
    assert forall e :: e in r <==> e in multiset(r);
    assert forall e :: e in s <==> e in multiset(s);
  }

  // ---- Searching and filtering ----------------------------------------

  /** The first entry with a key, or the length of the list. */
  method Find<E, K(==)>(s: seq<E>, key: E -> K, k: K) returns (i: nat)
    ensures i <= |s| && (i < |s| ==> key(s[i]) == k) && (i < |s| <==> Has(s, key, k))
    ensures forall j :: 0 <= j < i ==> key(s[j]) != k
  {
    i := 0;
    while i < |s| && key(s[i]) != k
      invariant i <= |s| && forall j :: 0 <= j < i ==> key(s[j]) != k
    {
      i := i + 1;
    }
  }

  function Without<E>(s: seq<E>, i: nat): seq<E>
    requires i < |s|
  {
    s[..i] + s[i + 1..]
  }

  /** The entries that satisfy `keep`, in order. */
  function Retain<E>(s: seq<E>, keep: E -> bool): seq<E> {
    if s == [] then []
    else Retain(s[..|s| - 1], keep) + (if keep(s[|s| - 1]) then [s[|s| - 1]] else [])
  }

  /** `r` is what stands in `s` at the places `at`, in order. */
  ghost predicate Picks<E>(r: seq<E>, s: seq<E>, at: seq<nat>) {
    && |at| == |r| && (forall i, j :: 0 <= i < j < |at| ==> at[i] < at[j])
    && (forall i :: 0 <= i < |at| ==> at[i] < |s| && r[i] == s[at[i]])
  }

  /** `r` is what stands in `s` at the places of the entries to keep, in order. */
  ghost predicate Filtered<E>(r: seq<E>, s: seq<E>, keep: E -> bool) {
    exists at :: Picks(r, s, at) && forall i: nat :: i < |s| ==> (keep(s[i]) <==> i in at)
  }

  lemma {:induction false} RetainPicks<E>(s: seq<E>, keep: E -> bool) returns (at: seq<nat>)
    ensures Picks(Retain(s, keep), s, at) && forall i: nat :: i < |s| ==> (keep(s[i]) <==> i in at)
  {
    at := [];
    if s != [] {
      var k := |s| - 1;
      at := RetainPicks(s[..k], keep);
      forall i | 0 <= i < |at| ensures at[i] < k { assert at[i] in at; }
      forall i: nat | i < k ensures keep(s[i]) <==> i in at { assert s[i] == s[..k][i]; }
      assert k !in at;
      if keep(s[k]) { at := at + [k]; }
    }
  }

  /** A filtered list is determined by what it keeps. */
  lemma FilteredIff<E>(r: seq<E>, s: seq<E>, keep: E -> bool)
    ensures Filtered(r, s, keep) <==> r == Retain(s, keep)
  {
    var kept := RetainPicks(s, keep);
    if Filtered(r, s, keep) {
      var at :| Picks(r, s, at) && forall i: nat :: i < |s| ==> (keep(s[i]) <==> i in at);
      var key, less := (n: nat) => n, (a: nat, b: nat) => a < b;
      AscendingDetermined(at, kept, key, less);
    }
  }

  lemma {:induction false} RetainEntries<E>(s: seq<E>, keep: E -> bool, e: E)
    ensures e in Retain(s, keep) <==> e in s && keep(e)
  {
    if s != [] {
      RetainEntries(s[..|s| - 1], keep, e);
      assert s == s[..|s| - 1] + [s[|s| - 1]];
    }
  }

  /** Filtering keeps any property of pairs in list order. */
  lemma {:induction false} RetainKeepsAscending<E, K(!new)>(s: seq<E>, keep: E -> bool, key: E -> K,
                                                           less: (K, K) -> bool)
    requires Ascending(s, key, less)
    ensures Ascending(Retain(s, keep), key, less)
  {
    if s != [] {
      var k := |s| - 1;
      RetainKeepsAscending(s[..k], keep, key, less);
      var r := Retain(s[..k], keep);
      forall i | 0 <= i < |r| ensures less(key(r[i]), key(s[k])) {
        RetainEntries(s[..k], keep, r[i]);
      }
    }
  }

  lemma {:induction false} RetainKeepsOrdered<E, K(!new)>(s: seq<E>, keep: E -> bool, key: E -> K, less: (K, K) -> bool)
    requires Ordered(s, key, less)
    ensures Ordered(Retain(s, keep), key, less)
  {
    if s != [] {
      var k := |s| - 1;
      RetainKeepsOrdered(s[..k], keep, key, less);
      var r := Retain(s[..k], keep);
      forall i | 0 <= i < |r| ensures !less(key(s[k]), key(r[i])) {
        RetainEntries(s[..k], keep, r[i]);
      }
    }
  }

  lemma RetainAppend<E>(s: seq<E>, e: E, keep: E -> bool)
    ensures Retain(s + [e], keep) == Retain(s, keep) + if keep(e) then [e] else []
  {
    assert (s + [e])[..|s|] == s;
  }

  /** `keep` picks entries of one key only. */
  ghost predicate OneKey<E(!new), K>(keep: E -> bool, key: E -> K) {
    forall x, y :: keep(x) && keep(y) ==> key(x) == key(y)
  }

  /** Insertion keeps the entries of each key in order, the new one last. */
  lemma {:induction false} InsertBehind<E(!new), K(!new)>(s: seq<E>, e: E, key: E -> K, less: (K, K) -> bool,
                                                          keep: E -> bool)
    requires StrictOrder(less) && OneKey(keep, key)
    ensures Retain(InsertBy(s, e, key, less), keep) == Retain(s, keep) + if keep(e) then [e] else []
  {
    if s == [] {
      RetainAppend(s, e, keep);
      assert s + [e] == [e];
    } else if less(key(e), key(s[|s| - 1])) {
      InsertBehind(s[..|s| - 1], e, key, less, keep);
      RetainAppend(InsertBy(s[..|s| - 1], e, key, less), s[|s| - 1], keep);
      assert !(keep(e) && keep(s[|s| - 1]));
    } else {
      RetainAppend(s, e, keep);
    }
  }

  /** Sorting is stable: the entries of one key stay in order. */
  lemma {:induction false} SortIsStable<E(!new), K(!new)>(s: seq<E>, key: E -> K, less: (K, K) -> bool,
                                                          keep: E -> bool)
    requires StrictOrder(less) && OneKey(keep, key)
    ensures Retain(SortBy(s, key, less), keep) == Retain(s, keep)
  {
    if s != [] {
      SortIsStable(s[..|s| - 1], key, less, keep);
      InsertBehind(SortBy(s[..|s| - 1], key, less), s[|s| - 1], key, less, keep);
    }
  }

  // ---- Maps -----------------------------------------------------------

  /** Collecting entries into a map: a later entry replaces an earlier one with
      the same key. */
  function Collect<E, K, V>(s: seq<E>, key: E -> K, value: E -> V): map<K, V> {
    if s == [] then map[] else Collect(s[..|s| - 1], key, value)[key(s[|s| - 1]) := value(s[|s| - 1])]
  }

  /** The list holds exactly the map's entries, put back together. */
  ghost predicate Lists<E(!new), K(!new), V>(s: seq<E>, m: map<K, V>, join: (K, V) -> E) {
    forall e :: e in s <==> exists k :: k in m && join(k, m[k]) == e
  }

  lemma {:induction false} CollectHas<E, K, V>(s: seq<E>, key: E -> K, value: E -> V, i: nat)
    requires i < |s| && forall j :: i < j < |s| ==> key(s[j]) != key(s[i])
    ensures key(s[i]) in Collect(s, key, value) && Collect(s, key, value)[key(s[i])] == value(s[i])
    decreases |s|
  {
    if i < |s| - 1 {
      assert s[..|s| - 1][i] == s[i];
      CollectHas(s[..|s| - 1], key, value, i);
    }
  }

  /** Everything in a collected map is the last entry of the list with its key. */
  lemma {:induction false} CollectOnly<E, K, V>(s: seq<E>, key: E -> K, value: E -> V, k: K) returns (i: nat)
    requires k in Collect(s, key, value)
    ensures i < |s| && key(s[i]) == k && Collect(s, key, value)[k] == value(s[i])
    ensures forall j :: i < j < |s| ==> key(s[j]) != k
  {
    var n := |s| - 1;
    if key(s[n]) == k {
      i := n;
    } else {
      i := CollectOnly(s[..n], key, value, k);
      forall j | i < j < |s| ensures key(s[j]) != k {
        assert j < n ==> s[..n][j] == s[j];
      }
    }
  }

  /** With unique keys, listing the collected map gives the same entries back. */
  lemma ListedAgain<E(!new), K(!new), V>(s: seq<E>, r: seq<E>, key: E -> K, value: E -> V, join: (K, V) -> E)
    requires UniqueKeys(s, key) && forall e :: join(key(e), value(e)) == e
    requires Lists(r, Collect(s, key, value), join)
    ensures SameEntries(r, s)
  {
    var m := Collect(s, key, value);
    forall e | e in s ensures e in r {
      var i :| 0 <= i < |s| && s[i] == e;
      CollectHas(s, key, value, i);
      assert join(key(e), m[key(e)]) == e;
    }
    forall e | e in r ensures e in s {
      var k :| k in m && join(k, m[k]) == e;
      var i := CollectOnly(s, key, value, k);
      assert e == s[i];
    }
  }

  /** An entry survives exactly when no other entry with its key comes later. */
  lemma SurvivesIff<E(!new), K(!new), V(!new)>(s: seq<E>, r: seq<E>, key: E -> K, value: E -> V,
                                               join: (K, V) -> E, i: nat)
    requires i < |s| && forall e :: join(key(e), value(e)) == e
    requires forall k, v :: key(join(k, v)) == k
    requires Lists(r, Collect(s, key, value), join)
    ensures s[i] in r <==>
      forall j :: i < j < |s| && key(s[j]) == key(s[i]) ==> (exists l :: j <= l < |s| && s[l] == s[i])
  {
    var m := Collect(s, key, value);
    if s[i] in r {
      var k :| k in m && join(k, m[k]) == s[i];
      assert key(join(k, m[k])) == k;
      var l := CollectOnly(s, key, value, k);
      assert s[l] == s[i];
      forall j | i < j < |s| && key(s[j]) == key(s[i]) ensures exists l :: j <= l < |s| && s[l] == s[i] {
        assert j <= l;
      }
    } else {
      var l := LastWith(s, key, key(s[i]), i);
      CollectHas(s, key, value, l);
      assert join(key(s[l]), m[key(s[l])]) == s[l];
      assert s[l] in r;
    }
  }

  lemma {:induction false} LastWith<E, K>(s: seq<E>, key: E -> K, k: K, i: nat) returns (l: nat)
    requires i < |s| && key(s[i]) == k
    ensures i <= l < |s| && key(s[l]) == k && forall j :: l < j < |s| ==> key(s[j]) != k
    decreases |s| - i
  {
    if j :| i < j < |s| && key(s[j]) == k {
      l := LastWith(s, key, k, j);
    } else {
      l := i;
    }
  }

  // ---- A list out of a map, sorted ------------------------------------

  /** What reading a list back from a map promises: the map's entries, all of them
      and as many, ordered by `id`. */
  ghost predicate Restored<E(!new), I, K(!new), V>(r: seq<E>, m: map<K, V>, join: (K, V) -> E, id: E -> I,
                                                    less: (I, I) -> bool) {
    Lists(r, m, join) && |r| == |m| && Ordered(r, id, less)
  }

  ghost function Set<E>(s: seq<E>): set<E> {
    set e | e in s
  }

  lemma {:induction false} SetSize<E>(s: seq<E>)
    ensures |Set(s)| <= |s|
    ensures |Set(s)| == |s| <==> forall i, j :: 0 <= i < j < |s| ==> s[i] != s[j]
  {
    if s == [] {
      assert Set(s) == {};
    } else {
      var k := |s| - 1;
      SetSize(s[..k]);
      assert Set(s) == Set(s[..k]) + {s[k]};
      if s[k] in s[..k] {
        var i :| 0 <= i < k && s[i] == s[k];
        assert Set(s) == Set(s[..k]);
      }
    }
  }

  lemma {:induction false} CollectSize<E, K, V>(s: seq<E>, key: E -> K, value: E -> V)
    requires UniqueKeys(s, key)
    ensures |Collect(s, key, value)| == |s|
  {
    if s != [] {
      var k := |s| - 1;
      CollectSize(s[..k], key, value);
      var m := Collect(s[..k], key, value);
      if key(s[k]) in m {
        var i := CollectOnly(s[..k], key, value, key(s[k]));
        assert false;
      }
      assert Collect(s, key, value).Keys == m.Keys + {key(s[k])};
    }
  }

  /** Round trip: collected under a text key that stands for the id, and read back,
      a list with unique ids comes back whole, ascending by id. */
  lemma RestoredIsSorted<E(!new), I(!new), K(!new), V>(s: seq<E>, r: seq<E>, text: E -> K, value: E -> V,
                                                       join: (K, V) -> E,
                                                       id: E -> I, less: (I, I) -> bool)
    requires StrictOrder(less) && UniqueKeys(s, id)
    requires forall e, f :: text(e) == text(f) ==> id(e) == id(f)
    requires forall e :: join(text(e), value(e)) == e
    requires Restored(r, Collect(s, text, value), join, id, less)
    ensures SameEntries(r, s) && |r| == |s| && Ascending(r, id, less)
  {
    assert UniqueKeys(s, text);
    ListedAgain(s, r, text, value, join);
    CollectSize(s, text, value);
    assert Set(r) == Set(s);
    SetSize(s);
    SetSize(r);
    forall i, j | 0 <= i < j < |r| ensures id(r[i]) != id(r[j]) {
      assert r[i] in s && r[j] in s;
      var k :| 0 <= k < |s| && s[k] == r[i];
      var l :| 0 <= l < |s| && s[l] == r[j];
      assert r[i] != r[j];
      assert k != l;
    }
    OrderedUnique(r, id, less);
  }

  /** The entries of a map, in no particular order. */
  method Items<E(!new), K(!new, ==), V(!new)>(m: map<K, V>, join: (K, V) -> E) returns (s: seq<E>)
    ensures Lists(s, m, join) && |s| == |m|
  {
    s := [];
    var todo := m.Keys;
    ghost var keys: seq<K> := [];
    while todo != {}
      invariant todo <= m.Keys && |s| == |keys| && |s| + |todo| == |m|
      invariant forall k :: k in m ==> k in todo || k in keys
      invariant forall i :: 0 <= i < |keys| ==> keys[i] in m && s[i] == join(keys[i], m[keys[i]])
    {
      var k :| k in todo;
      s := s + [join(k, m[k])];
      keys := keys + [k];
      todo := todo - {k};
    }
    forall k | k in m ensures join(k, m[k]) in s {
      var i :| 0 <= i < |keys| && keys[i] == k;
      assert s[i] == join(k, m[k]);
    }
  }

  method Restore<E(!new), I(!new), K(!new, ==), V(!new)>(m: map<K, V>, join: (K, V) -> E, id: E -> I,
                                                         less: (I, I) -> bool)
    returns (r: seq<E>)
    requires StrictOrder(less)
    ensures Restored(r, m, join, id, less)
  {
    var s := Items(m, join);
    r := SortBy(s, id, less);
    SortOrders(s, id, less);
    assert forall e :: e in r <==> e in multiset(r);
    assert forall e :: e in s <==> e in multiset(s);
    assert |multiset(r)| == |r| && |multiset(s)| == |s|;
  }
}
