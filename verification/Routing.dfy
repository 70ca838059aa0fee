/** The bucket binding table: half-open ranges of 16-bit buckets, each bound to
a KV group, and the update that replaces what a new range overlaps. */
module Routing {
  import KeyedLists
  import opened Options

  type u16 = n: int | 0 <= n < 0x1_0000

  datatype MigrationState = NotMigrating | Copying | Cutover | Cleanup | Complete

  datatype BucketBinding = BucketBinding(
    start: u16, end: u16, store: nat, group: nat,
    oldStore: Option<nat>, oldGroup: Option<nat>, state: MigrationState)

  predicate Holds(b: BucketBinding, bucket: u16) {
    b.start <= bucket < b.end
  }

  /** `BindingTable::route`: the first binding that holds the bucket. */
  function Route(t: seq<BucketBinding>, bucket: u16): Option<BucketBinding> {
    if t == [] then None
    else if Holds(t[0], bucket) then Some(t[0])
    else Route(t[1..], bucket)
  }

  /** What an update with `b` keeps. */
  predicate Clear(c: BucketBinding, b: BucketBinding) {
    c.end <= b.start || c.start >= b.end
  }

  ghost predicate Disjoint(t: seq<BucketBinding>) {
    forall i, j :: 0 <= i < j < |t| ==> Clear(t[i], t[j])
  }

  ghost predicate SortedByStart(t: seq<BucketBinding>) {
    forall i, j :: 0 <= i < j < |t| ==> t[i].start <= t[j].start
  }

  function Retain(t: seq<BucketBinding>, b: BucketBinding): seq<BucketBinding> {
    if t == [] then []
    else
      var rest := Retain(t[..|t| - 1], b);
      if Clear(t[|t| - 1], b) then rest + [t[|t| - 1]] else rest
  }

  /** The retained bindings stay in order. */
  lemma RetainInOrder(t: seq<BucketBinding>, b: BucketBinding)
    ensures KeyedLists.Filtered(Retain(t, b), t, (c: BucketBinding) => Clear(c, b))
  {
    var keep := (c: BucketBinding) => Clear(c, b);
    RetainFilters(t, b, keep);
    KeyedLists.FilteredIff(Retain(t, b), t, keep);
  }

  lemma {:induction false} RetainFilters(t: seq<BucketBinding>, b: BucketBinding, keep: BucketBinding -> bool)
    requires forall c :: keep(c) <==> Clear(c, b)
    ensures Retain(t, b) == KeyedLists.Retain(t, keep)
  {
    if t != [] { RetainFilters(t[..|t| - 1], b, keep); }
  }

  /** `u` is a table an update of `t` with `b` may leave: retained bindings and
      `b`, sorted by start in some order. */
  ghost predicate Updated(t: seq<BucketBinding>, b: BucketBinding, u: seq<BucketBinding>) {
    multiset(u) == multiset(Retain(t, b) + [b]) && SortedByStart(u)
  }

  class BindingCache {
    var table: seq<BucketBinding>

    constructor ()
      ensures table == []
    {
      table := [];
    }

    method UpdateBinding(b: BucketBinding)
      modifies this
      ensures Updated(old(table), b, table)
      ensures old(Disjoint(table)) ==> Disjoint(table)
    {
      var next: seq<BucketBinding> := [];
      for i := 0 to |table|
        invariant table == old(table)
        invariant next == Retain(table[..i], b)
      {
        assert table[..i + 1][..i] == table[..i];
        if Clear(table[i], b) { next := next + [table[i]]; }
      }
      assert table[..|table|] == table;
      next := SortByStart(next + [b]);
      table := next;
      if old(Disjoint(table)) { UpdateKeepsDisjoint(old(table), b, table); }
    }
  }

  method SortByStart(t: seq<BucketBinding>) returns (u: seq<BucketBinding>)
    ensures multiset(u) == multiset(t) && SortedByStart(u)
  {
    u := [];
    for i := 0 to |t|
      invariant multiset(u) == multiset(t[..i]) && SortedByStart(u)
    {
      assert t[..i + 1] == t[..i] + [t[i]];
      u := InsertByStart(u, t[i]);
    }
    assert t[..|t|] == t;
  }

  method InsertByStart(u: seq<BucketBinding>, b: BucketBinding) returns (v: seq<BucketBinding>)
    requires SortedByStart(u)
    ensures multiset(v) == multiset(u) + multiset{b} && SortedByStart(v)
  {
    var k := |u|;
    while k > 0 && u[k - 1].start > b.start
      invariant 0 <= k <= |u|
      invariant forall j :: k <= j < |u| ==> u[j].start > b.start
    {
      k := k - 1;
    }
    v := u[..k] + [b] + u[k..];
    Inserted(u, b, k, v);
    Rearranged(u, b, k);
  }

  lemma Rearranged<T>(u: seq<T>, b: T, k: nat)
    requires k <= |u|
    ensures multiset(u[..k] + [b] + u[k..]) == multiset(u) + multiset{b}
  {
    assert u == u[..k] + u[k..];
  }

  lemma Inserted(u: seq<BucketBinding>, b: BucketBinding, k: nat, v: seq<BucketBinding>)
    requires SortedByStart(u) && k <= |u| && v == u[..k] + [b] + u[k..]
    requires k > 0 ==> u[k - 1].start <= b.start
    requires forall j :: k <= j < |u| ==> u[j].start > b.start
    ensures SortedByStart(v)
  {
    forall i, j | 0 <= i < j < |v| ensures v[i].start <= v[j].start {
      assert i < k ==> v[i] == u[i] && u[i].start <= u[k - 1].start;
      assert j > k ==> v[j] == u[j - 1];
      assert i > k ==> v[i] == u[i - 1];
      assert j < k ==> v[j] == u[j];
    }
  }

  // ---- Permutations and routing ---------------------------------------

  lemma {:induction false} CountTwice<T>(t: seq<T>, c: T)
    requires multiset(t)[c] >= 2
    ensures exists i, j :: 0 <= i < j < |t| && t[i] == t[j] == c
  {
    var k := |t| - 1;
    assert t == t[..k] + [t[k]];
    if multiset(t[..k])[c] >= 2 {
      CountTwice(t[..k], c);
      var i, j :| 0 <= i < j < k && t[..k][i] == t[..k][j] == c;
      assert t[i] == t[j] == c;
    } else {
      assert c in multiset(t[..k]);
      var i :| 0 <= i < k && t[..k][i] == c;
      assert t[i] == t[k] == c;
    }
  }

  lemma PermKeepsDisjoint(t: seq<BucketBinding>, u: seq<BucketBinding>)
    requires Disjoint(t) && multiset(t) == multiset(u)
    ensures Disjoint(u)
  {
    forall i, j | 0 <= i < j < |u| ensures Clear(u[i], u[j]) {
      if u[i] == u[j] {
        assert u == u[..i] + [u[i]] + u[i + 1..j] + [u[j]] + u[j + 1..];
        CountTwice(t, u[i]);
      } else {
        assert u[i] in multiset(t) && u[j] in multiset(t);
      }
    }
  }

  lemma {:induction false} RetainKeeps(t: seq<BucketBinding>, b: BucketBinding)
    ensures forall c :: c in Retain(t, b) <==> c in t && Clear(c, b)
    ensures Disjoint(t) ==> Disjoint(Retain(t, b))
  {
    if t != [] {
      var k := |t| - 1;
      RetainKeeps(t[..k], b);
      assert t == t[..k] + [t[k]];
      if Disjoint(t) {
        forall c | c in t[..k] ensures Clear(c, t[k]) {
          var i :| 0 <= i < k && t[..k][i] == c;
          assert Clear(t[i], t[k]);
        }
      }
    }
  }

  lemma UpdateKeepsDisjoint(t: seq<BucketBinding>, b: BucketBinding, u: seq<BucketBinding>)
    requires Disjoint(t) && Updated(t, b, u)
    ensures Disjoint(u)
  {
    RetainKeeps(t, b);
    PermKeepsDisjoint(Retain(t, b) + [b], u);
  }

  lemma {:induction false} RouteFinds(t: seq<BucketBinding>, bucket: u16)
    ensures match Route(t, bucket)
      case Some(c) => c in t && Holds(c, bucket)
      case None => forall c :: c in t ==> !Holds(c, bucket)
  {
    if t != [] {
      RouteFinds(t[1..], bucket);
      assert t == [t[0]] + t[1..];
    }
  }

  /** The first binding that holds the bucket wins, in any table. */
  lemma {:induction false} RouteIsFirst(t: seq<BucketBinding>, bucket: u16, i: nat)
    requires i < |t| && Holds(t[i], bucket) && forall j :: 0 <= j < i ==> !Holds(t[j], bucket)
    ensures Route(t, bucket) == Some(t[i])
  {
    if i > 0 { RouteIsFirst(t[1..], bucket, i - 1); }
  }

  /** In a disjoint table the route is the binding that holds the bucket. */
  lemma RouteUnique(t: seq<BucketBinding>, bucket: u16, c: BucketBinding)
    requires Disjoint(t) && c in t && Holds(c, bucket)
    ensures Route(t, bucket) == Some(c)
  {
    RouteFinds(t, bucket);
    var d := Route(t, bucket).value;
    var i, j :| 0 <= i < |t| && 0 <= j < |t| && t[i] == c && t[j] == d;
    assert i == j;
  }

  /** Where every bucket goes after an update: to the new binding if it holds
      the bucket, else where it went before if that binding was clear of the
      new one, else nowhere. */
  lemma UpdateRoutes(t: seq<BucketBinding>, b: BucketBinding, u: seq<BucketBinding>, bucket: u16)
    requires Disjoint(t) && Updated(t, b, u)
    ensures Route(u, bucket) ==
      if Holds(b, bucket) then Some(b)
      else match Route(t, bucket)
        case Some(c) => if Clear(c, b) then Some(c) else None
        case None => None
  {
    UpdateKeepsDisjoint(t, b, u);
    RetainKeeps(t, b);
    RouteFinds(t, bucket);
    RouteFinds(u, bucket);
    assert forall c :: c in u <==> c in multiset(u);
    assert forall c :: c in u <==> c == b || (c in t && Clear(c, b));
    if Holds(b, bucket) {
      RouteUnique(u, bucket, b);
    } else if Route(t, bucket).Some? && Clear(Route(t, bucket).value, b) {
      RouteUnique(u, bucket, Route(t, bucket).value);
    } else if Route(u, bucket).Some? {
      RouteUnique(t, bucket, Route(u, bucket).value);
    }
  }

  /** An empty range inside a binding takes that whole binding away. */
  lemma EmptyRangeUnbinds(c: BucketBinding, b: BucketBinding, u: seq<BucketBinding>, bucket: u16)
    requires c.start < b.start == b.end < c.end && Updated([c], b, u)
    ensures Route(u, bucket) == None
  {
    UpdateRoutes([c], b, u, bucket);
    RouteFinds([c], bucket);
  }

  // ---- The last bucket ------------------------------------------------

  function DefaultTable(store: nat, group: nat): seq<BucketBinding> {
    [BucketBinding(0, 65535, store, group, None, None, NotMigrating)]
  }

  /** No table routes bucket 65535: ends are exclusive and fit in 16 bits. */
  lemma LastBucketUnbound(t: seq<BucketBinding>)
    ensures Route(t, 65535) == None
  {
    RouteFinds(t, 65535);
  }

  /** Every other bucket goes to the default group, with no migration under way. */
  lemma DefaultTableRoutesIff(store: nat, group: nat, bucket: u16)
    ensures var r := Route(DefaultTable(store, group), bucket);
      && (r.Some? <==> bucket != 65535)
      && (r.Some? ==>
            && r.value.store == store && r.value.group == group && r.value.state == NotMigrating
            && r.value.oldStore == None && r.value.oldGroup == None)
  {
  }
}
