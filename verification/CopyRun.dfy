/** What an undisturbed copy does: it copies every page item by item, finishes, and
leaves the new group with every record of the old one. */
module CopyRun {
  import opened MigrationRun
  import opened Options
  import opened Paging

  predicate OfCopy<V>(e: Event<V>) {
    e.ScanPage? || e.CopyOne? || e.EndPage?
  }

  /** Only the new group and the copy's own state have changed. */
  ghost predicate OnlyCopied<V>(s: State<V>, s': State<V>) {
    s' == s.(news := s'.news, task := s'.task)
  }

  /** The items have been written over `before`. */
  ghost predicate WrittenOver<V>(before: map<nat, V>, now: map<nat, V>, items: seq<(nat, V)>) {
    && (forall i :: 0 <= i < |items| ==> items[i].0 in now && now[items[i].0] == items[i].1)
    && (forall k :: !Listed(items, k) ==> SameAt(before, now, k))
  }

  ghost predicate SameAt<V>(before: map<nat, V>, now: map<nat, V>, k: nat) {
    (k in now <==> k in before) && (k in before ==> now[k] == before[k])
  }

  ghost predicate InKeyOrder<V>(items: seq<(nat, V)>) {
    forall i, j :: 0 <= i < j < |items| ==> items[i].0 < items[j].0
  }

  lemma {:induction false} Joined<V>(s: State<V>, a: seq<Event<V>>, b: seq<Event<V>>)
    requires Legal(s, a) && Legal(Run(s, a), b)
    ensures Legal(s, a + b) && Run(s, a + b) == Run(Run(s, a), b)
    decreases |a|
  {
    if a == [] {
      assert a + b == b;
    } else {
      Joined(Apply(s, a[0]), a[1..], b);
      assert (a + b)[1..] == a[1..] + b;
    }
  }

  lemma FirstWritten<V>(before: map<nat, V>, now: map<nat, V>, items: seq<(nat, V)>)
    requires items != [] && InKeyOrder(items)
    requires WrittenOver(before[items[0].0 := items[0].1], now, items[1..])
    ensures WrittenOver(before, now, items)
  {
    var rest, k := items[1..], items[0].0;
    assert !Listed(rest, k);
    forall i | 0 <= i < |items| ensures items[i].0 in now && now[items[i].0] == items[i].1 {
      if i > 0 { assert rest[i - 1] == items[i]; }
    }
    forall j | !Listed(items, j) ensures SameAt(before, now, j) {
      assert items[0].0 != j;
      assert forall i :: 0 <= i < |rest| ==> rest[i] == items[i + 1];
      assert !Listed(rest, j);
    }
  }

  /** The items of a page, one by one. */
  lemma {:induction false} ItemsAreCopied<V>(s: State<V>) returns (es: seq<Event<V>>)
    requires s.task.Paging? && InKeyOrder(s.task.items)
    ensures |es| == |s.task.items| && (forall e :: e in es ==> e.CopyOne?) && Legal(s, es)
    ensures var s', t := Run(s, es), s.task;
      && OnlyCopied(s, s') && WrittenOver(s.news, s'.news, t.items)
      && s'.task == t.(items := [], cursor := if t.items == [] then t.cursor else t.items[|t.items| - 1].0)
    decreases |s.task.items|
  {
    es := [];
    if s.task.items != [] {
      var s1 := Apply(s, CopyOne);
      var rest := ItemsAreCopied(s1);
      es := [CopyOne] + rest;
      assert es[1..] == rest;
      FirstWritten(s.news, Run(s1, rest).news, s.task.items);
    }
  }

  /** A page that was read is copied whole, and the next one begins behind it. */
  lemma PageIsCopied<V>(s: State<V>, items: seq<(nat, V)>, more: bool) returns (es: seq<Event<V>>)
    requires Enabled(s, ScanPage(items, more)) && items != []
    ensures (forall e :: e in es ==> OfCopy(e)) && Legal(s, es)
    ensures var s' := Run(s, es);
      && OnlyCopied(s, s') && WrittenOver(s.news, s'.news, items)
      && s'.task == if more then Scanning(items[|items| - 1].0) else Finished
  {
    forall i, j | 0 <= i < j < |items| ensures items[i].0 < items[j].0 { assert Below(items[i].0, items[j].0); }
    var s1 := Apply(s, ScanPage(items, more));
    var copies := ItemsAreCopied(s1);
    var s2 := Run(s1, copies);
    var end: seq<Event<V>> := [EndPage];
    assert end[1..] == [];
    Joined(s1, copies, end);
    es := [ScanPage(items, more)] + (copies + end);
    assert es[1..] == copies + end;
  }

  lemma LeastOf(ks: set<nat>) returns (k: nat)
    requires ks != {}
    ensures k in ks && forall j :: j in ks ==> k <= j
  {
    k :| k in ks;
    if ks != {k} {
      var least := LeastOf(ks - {k});
      assert forall j :: j in ks ==> j == k || j in ks - {k};
      if least < k { k := least; }
    }
  }

  /** The records ahead of the copy are in the new group with their values; every other
      key is as it was there. */
  ghost predicate CopiedFrom<V>(s: State<V>, cursor: int, news: map<nat, V>) {
    && (forall k :: k in s.olds && k > cursor ==> k in news && news[k] == s.olds[k])
    && (forall k: nat :: !(k in s.olds && k > cursor) ==> SameAt(s.news, news, k))
  }

  /** One key further. */
  lemma CopiedOneMore<V>(s: State<V>, cursor: int, k: nat, news: map<nat, V>, all: map<nat, V>)
    requires k in s.olds && k > cursor && (forall j :: j in s.olds && j > cursor ==> k <= j)
    requires WrittenOver(s.news, news, [(k, s.olds[k])]) && CopiedFrom(s.(news := news), k, all)
    ensures CopiedFrom(s, cursor, all)
  {
    var page := [(k, s.olds[k])];
    assert page[0].0 in news;
    forall j: nat | !(j in s.olds && j > cursor) ensures SameAt(s.news, all, j) {
      assert j != k && !Listed(page, j);
      assert SameAt(s.news, news, j) && SameAt(news, all, j);
    }
  }

  /** The page of the next key alone. */
  lemma NextKeyIsCopied<V>(s: State<V>, k: nat) returns (es: seq<Event<V>>)
    requires s.task.Scanning? && k in Ahead(s.olds, s.task.cursor)
    requires forall j :: j in Ahead(s.olds, s.task.cursor) ==> k <= j
    ensures (forall e :: e in es ==> OfCopy(e)) && Legal(s, es)
    ensures var s' := Run(s, es);
      && OnlyCopied(s, s') && WrittenOver(s.news, s'.news, [(k, s.olds[k])])
      && s'.task == if Ahead(s.olds, s.task.cursor) != {k} then Scanning(k) else Finished
  {
    var ahead := Ahead(s.olds, s.task.cursor);
    var page, more := [(k, s.olds[k])], ahead != {k};
    forall j | j in ahead ensures Listed(page, j) || (more && Below(k, j)) {
      if j == k { assert page[0].0 == j; }
    }
    es := PageIsCopied(s, page, more);
  }

  lemma {:induction false} ThenFinished<V>(s: State<V>, k: nat, page: seq<Event<V>>, rest: seq<Event<V>>)
    requires s.task.Scanning? && k in s.olds && k > s.task.cursor
    requires forall j :: j in s.olds && j > s.task.cursor ==> k <= j
    requires Legal(s, page) && Legal(Run(s, page), rest)
    requires var s1, s2 := Run(s, page), Run(Run(s, page), rest);
      && OnlyCopied(s, s1) && WrittenOver(s.news, s1.news, [(k, s.olds[k])])
      && OnlyCopied(s1, s2) && s2.task.Finished? && CopiedFrom(s1, k, s2.news)
    ensures Legal(s, page + rest)
    ensures var s' := Run(s, page + rest);
      OnlyCopied(s, s') && s'.task.Finished? && CopiedFrom(s, s.task.cursor, s'.news)
  {
    Joined(s, page, rest);
    var s1 := Run(s, page);
    assert s.(news := s1.news).olds == s1.olds;
    CopiedOneMore(s, s.task.cursor, k, s1.news, Run(s1, rest).news);
  }

  /** From wherever it is, a copy left alone finishes. */
  lemma {:induction false} CopyFinishes<V>(s: State<V>) returns (es: seq<Event<V>>)
    requires s.task.Scanning?
    ensures (forall e :: e in es ==> OfCopy(e)) && Legal(s, es)
    ensures var s' := Run(s, es);
      OnlyCopied(s, s') && s'.task.Finished? && CopiedFrom(s, s.task.cursor, s'.news)
    decreases |Ahead(s.olds, s.task.cursor)|
  {
    var cursor, ahead := s.task.cursor, Ahead(s.olds, s.task.cursor);
    forall k | k in s.olds && k > cursor ensures k in ahead {}
    if ahead == {} {
      es := NothingAhead(s);
    } else {
      var k := LeastOf(ahead);
      es := NextKeyIsCopied(s, k);
      var s1, rest := Run(s, es), [];
      if ahead != {k} {
        assert Ahead(s1.olds, k) == ahead - {k};
        rest := CopyFinishes(s1);
      }
      ThenFinished(s, k, es, rest);
      es := es + rest;
    }
  }

  lemma NothingAhead<V>(s: State<V>) returns (es: seq<Event<V>>)
    requires s.task.Scanning? && Ahead(s.olds, s.task.cursor) == {}
    ensures es == [ScanPage([], false)] && Legal(s, es) && Run(s, es) == s.(task := Finished)
  {
    es := [ScanPage([], false)];
    assert es[1..] == [];
  }

  /** Started over, it leaves the new group with every record of the old one, and every
      other key as it was. */
  lemma CopyStartedOver<V>(s: State<V>) returns (es: seq<Event<V>>)
    ensures es != [] && es[0] == Restart && (forall i :: 0 < i < |es| ==> OfCopy(es[i])) && Legal(s, es)
    ensures var s' := Run(s, es); OnlyCopied(s, s') && s'.task.Finished? && s'.news == s.news + s.olds
  {
    var s1 := Apply(s, Restart);
    var rest := CopyFinishes(s1);
    es := [Restart] + rest;
    assert es[1..] == rest;
  }

  /** A put writes the new group at once, and has an old leg in the dual states only. */
  lemma PutWritesNew<V>(s: State<V>, k: nat, v: V)
    requires Enabled(s, PutNew(k, v))
    ensures var s' := Apply(s, PutNew(k, v));
      && Read(s', k) == Some(v) && s'.olds == s.olds && s'.task == s.task
      && (k in s'.inFlight <==> s.dual) && (s.dual ==> s'.inFlight[k] == v)
      && (forall j :: j != k ==> SameAt(s.news, s'.news, j) && SameAt(s.inFlight, s'.inFlight, j))
  {
  }

  /** Either way a put's old leg ends, the key is free for the next put, and only a leg
      that did not fail has changed the old group, there and nowhere else. */
  lemma OldLegEnds<V>(s: State<V>, e: Event<V>, v: V)
    requires (e.PutOld? || e.PutOldFails?) && Enabled(s, e)
    ensures var s' := Apply(s, e);
      && Enabled(s', PutNew(e.k, v)) && s'.news == s.news && s'.last == s.last && s'.task == s.task
      && (forall k :: k != e.k ==> SameAt(s.inFlight, s'.inFlight, k) && SameAt(s.olds, s'.olds, k))
      && (e.PutOldFails? ==> SameAt(s.olds, s'.olds, e.k))
      && (e.PutOld? ==> e.k in s'.olds && s'.olds[e.k] == s.inFlight[e.k])
  {
  }
}
