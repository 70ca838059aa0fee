/** Allocating the blocks of one strip: ask every disk group of the plan,
re-ask for what is missing, and give everything back when that fails. */
module Allocator {

  datatype Segment = Segment(disk: nat, zone: nat, off: nat, len: nat)

  datatype Response = Granted(segments: seq<Segment>) | Failed

  /** A request to a disk group and its answer. */
  datatype Call = Call(dg: nat, count: nat, answer: Response)

  datatype AllocError = AllocateFailed(dg: nat) | PartialAllocation(requested: nat, got: nat)

  datatype Result = Ok(segments: seq<Segment>) | Err(error: AllocError)

  const U32_MAX := 0xffff_ffff

  const MAX_ALLOC_RETRIES := 3

  function Saturate(n: nat): (r: nat)
    ensures r <= n && r <= 0xffff_ffff && (r == n || r == 0xffff_ffff)
  {
    if n <= U32_MAX then n else U32_MAX
  }

  function Sum(plan: seq<(nat, nat)>): nat {
    if plan == [] then 0 else Sum(plan[..|plan| - 1]) + plan[|plan| - 1].1
  }

  lemma {:induction false} SumConcat(a: seq<(nat, nat)>, b: seq<(nat, nat)>)
    ensures Sum(a + b) == Sum(a) + Sum(b)
  {
    if b == [] {
      assert a + b == a;
    } else {
      SumConcat(a, b[..|b| - 1]);
      assert (a + b)[..|a + b| - 1] == a + b[..|b| - 1];
    }
  }

  /** What a plan asks for: nothing if empty, and the counts of its entries together. */
  lemma SumOfEntries(plan: seq<(nat, nat)>, dg: nat, count: nat)
    ensures Sum([]) == 0 && Sum([(dg, count)]) == count && Sum(plan + [(dg, count)]) == Sum(plan) + count
  {
    SumConcat(plan, [(dg, count)]);
    assert [(dg, count)] == [] + [(dg, count)];
    SumConcat([], [(dg, count)]);
  }

  /** The diskdb pool: answers come from `script`, whatever it is; the log keeps
      every request with its answer, and every segment given back. */
  class Pool {
    const script: nat -> Response
    var log: seq<Call>
    var freed: seq<Segment>

    constructor (script: nat -> Response)
      ensures this.script == script && log == [] && freed == []
    {
      this.script := script;
      log, freed := [], [];
    }

    method AllocateBlocks(dg: nat, count: nat) returns (r: Response)
      modifies this
      ensures r == script(|old(log)|) && log == old(log) + [Call(dg, count, r)] && freed == old(freed)
    {
      r := script(|log|);
      log := log + [Call(dg, count, r)];
    }

    method FreeBlocks(segments: seq<Segment>)
      modifies this
      ensures freed == old(freed) + segments && log == old(log)
    {
      freed := freed + segments;
    }
  }

  // ---- Who was served by which call -----------------------------------

  function SegmentsOf(r: Response): seq<Segment> {
    if r.Granted? then r.segments else []
  }

  /** Everything the calls granted, in order. */
  function GrantedBy(calls: seq<Call>): seq<Segment> {
    if calls == [] then [] else GrantedBy(calls[..|calls| - 1]) + SegmentsOf(calls[|calls| - 1].answer)
  }

  /** What the calls made for plan entry `i` granted, in order; call c was made for
      entry `who[c]`. */
  ghost function GrantedTo(calls: seq<Call>, who: seq<nat>, i: nat): seq<Segment>
    requires |who| == |calls|
  {
    if calls == [] then []
    else
      var k := |calls| - 1;
      GrantedTo(calls[..k], who[..k], i) + (if who[k] == i then SegmentsOf(calls[k].answer) else [])
  }

  /** Each call went to the disk group of the plan entry it was made for, and asked for
      exactly what that entry still missed. */
  ghost predicate Served(plan: seq<(nat, nat)>, calls: seq<Call>, who: seq<nat>) {
    && |who| == |calls|
    && forall c :: 0 <= c < |calls| ==> ServedBy(plan, calls, who, c)
  }

  ghost predicate ServedBy(plan: seq<(nat, nat)>, calls: seq<Call>, who: seq<nat>, c: nat)
    requires |who| == |calls| && c < |calls|
  {
    && who[c] < |plan| && calls[c].dg == plan[who[c]].0
    && |GrantedTo(calls[..c], who[..c], who[c])| + calls[c].count == plan[who[c]].1
  }

  ghost predicate NoneFailed(calls: seq<Call>) {
    forall c :: 0 <= c < |calls| ==> calls[c].answer.Granted?
  }

  /** The disk group of the first call that failed. */
  ghost predicate FirstFailure(calls: seq<Call>, dg: nat) {
    exists c :: 0 <= c < |calls| && calls[c].answer.Failed? && calls[c].dg == dg && NoneFailed(calls[..c])
  }

  lemma {:induction false} GrantedToConcat(a: seq<Call>, v: seq<nat>, b: seq<Call>, w: seq<nat>, i: nat)
    requires |v| == |a| && |w| == |b|
    ensures GrantedTo(a + b, v + w, i) == GrantedTo(a, v, i) + GrantedTo(b, w, i)
  {
    if b == [] {
      assert a + b == a && v + w == v;
    } else {
      var k := |b| - 1;
      GrantedToConcat(a, v, b[..k], w[..k], i);
      var c, u := a + b, v + w;
      assert c[..|c| - 1] == a + b[..k] && u[..|c| - 1] == v + w[..k] && c[|c| - 1] == b[k] && u[|c| - 1] == w[k];
      var last := if w[k] == i then SegmentsOf(b[k].answer) else [];
      assert GrantedTo(c, u, i) == (GrantedTo(a, v, i) + GrantedTo(b[..k], w[..k], i)) + last;
      assert GrantedTo(b, w, i) == GrantedTo(b[..k], w[..k], i) + last;
    }
  }

  lemma {:induction false} GrantedConcat(a: seq<Call>, b: seq<Call>)
    ensures GrantedBy(a + b) == GrantedBy(a) + GrantedBy(b)
  {
    if b == [] {
      assert a + b == a;
    } else {
      var k := |b| - 1;
      var last := SegmentsOf(b[k].answer);
      GrantedConcat(a, b[..k]);
      assert (a + b)[..|a + b| - 1] == a + b[..k] && (a + b)[|a + b| - 1] == b[k];
      assert GrantedBy(a) + GrantedBy(b[..k]) + last == GrantedBy(a) + (GrantedBy(b[..k]) + last);
    }
  }

  /** Call by call. */
  lemma GrantedByOne(calls: seq<Call>, c: Call)
    ensures c.answer.Granted? ==> GrantedBy(calls + [c]) == GrantedBy(calls) + c.answer.segments
    ensures c.answer.Failed? ==> GrantedBy(calls + [c]) == GrantedBy(calls)
  {
    assert (calls + [c])[..|calls|] == calls;
  }

  lemma {:induction false} NoneGrantedTo(calls: seq<Call>, who: seq<nat>, i: nat)
    requires |who| == |calls| && i !in who
    ensures GrantedTo(calls, who, i) == []
  {
    if calls != [] {
      var k := |calls| - 1;
      assert who[k] in who;
      forall j | j in who[..k] ensures j in who {}
      NoneGrantedTo(calls[..k], who[..k], i);
    }
  }

  ghost predicate Distinct(who: seq<nat>) {
    forall p, q :: 0 <= p < q < |who| ==> who[p] != who[q]
  }

  /** How often calls were made for an entry. */
  ghost function Times(who: seq<nat>, i: nat): nat {
    if who == [] then 0 else Times(who[..|who| - 1], i) + if who[|who| - 1] == i then 1 else 0
  }

  /** No entry has been asked for more than `n` times. */
  ghost predicate AtMost(who: seq<nat>, n: nat) {
    forall i :: Times(who, i) <= n
  }

  lemma {:induction false} TimesConcat(who: seq<nat>, idx: seq<nat>, i: nat)
    requires Distinct(idx)
    ensures Times(who + idx, i) == Times(who, i) + if i in idx then 1 else 0
  {
    if idx == [] {
      assert who + idx == who;
    } else {
      var k := |idx| - 1;
      TimesConcat(who, idx[..k], i);
      assert (who + idx)[..|who + idx| - 1] == who + idx[..k] && idx == idx[..k] + [idx[k]];
    }
  }

  lemma AskedAgain(who: seq<nat>, idx: seq<nat>, n: nat)
    requires AtMost(who, n) && Distinct(idx)
    ensures AtMost(who + idx, n + 1)
  {
    forall i ensures Times(who + idx, i) <= n + 1 { TimesConcat(who, idx, i); }
  }

  /** In calls for different entries, an entry gets the answer to its own call. */
  lemma {:induction false} GrantedOnce(calls: seq<Call>, who: seq<nat>, p: nat)
    requires |who| == |calls| && p < |who| && Distinct(who)
    ensures GrantedTo(calls, who, who[p]) == SegmentsOf(calls[p].answer)
    decreases |calls|
  {
    var k := |calls| - 1;
    if p == k {
      NoneGrantedTo(calls[..k], who[..k], who[k]);
    } else {
      GrantedOnce(calls[..k], who[..k], p);
    }
  }

  ghost function SumTo(f: nat -> nat, n: nat): nat {
    if n == 0 then 0 else SumTo(f, n - 1) + f(n - 1)
  }

  lemma {:induction false} SumChanges(f: nat -> nat, g: nat -> nat, j: nat, x: nat, n: nat)
    requires forall i :: f(i) == g(i) + if i == j then x else 0
    ensures SumTo(f, n) == SumTo(g, n) + if j < n then x else 0
  {
    if n > 0 { SumChanges(f, g, j, x, n - 1); }
  }

  lemma {:induction false} SumOfNone(f: nat -> nat, n: nat)
    requires forall i :: f(i) == 0
    ensures SumTo(f, n) == 0
  {
    if n > 0 { SumOfNone(f, n - 1); }
  }

  /** How often each entry was granted a segment. */
  ghost function Share(calls: seq<Call>, who: seq<nat>, b: Segment): nat -> nat
    requires |who| == |calls|
  {
    i => multiset(GrantedTo(calls, who, i))[b]
  }

  lemma ShareStep(calls: seq<Call>, who: seq<nat>, i: nat, b: Segment)
    requires |who| == |calls| > 0
    ensures var k := |calls| - 1;
      Share(calls, who, b)(i) ==
      Share(calls[..k], who[..k], b)(i) + if i == who[k] then multiset(SegmentsOf(calls[k].answer))[b] else 0
  {
    var k := |calls| - 1;
    assert GrantedTo(calls, who, i) ==
      GrantedTo(calls[..k], who[..k], i) + if who[k] == i then SegmentsOf(calls[k].answer) else [];
  }

  /** Every segment granted went to one plan entry: the entries' shares are all of it. */
  lemma {:induction false} SharesAreAll(calls: seq<Call>, who: seq<nat>, n: nat, b: Segment)
    requires |who| == |calls| && forall c :: 0 <= c < |who| ==> who[c] < n
    ensures SumTo(Share(calls, who, b), n) == multiset(GrantedBy(calls))[b]
  {
    if calls == [] {
      SumOfNone(Share(calls, who, b), n);
    } else {
      var k := |calls| - 1;
      var f, g := Share(calls, who, b), Share(calls[..k], who[..k], b);
      var x := multiset(SegmentsOf(calls[k].answer))[b];
      forall i: nat ensures f(i) == g(i) + if i == who[k] then x else 0 { ShareStep(calls, who, i, b); }
      SumChanges(f, g, who[k], x, n);
      SharesAreAll(calls[..k], who[..k], n, b);
    }
  }

  // ---- One round ------------------------------------------------------

  /** Asks once for everything pending. */
  method AskAll(pool: Pool, pending: seq<(nat, nat)>) returns (ghost calls: seq<Call>, rs: seq<Response>)
    modifies pool
    ensures pool.log == old(pool.log) + calls && pool.freed == old(pool.freed)
    ensures |calls| == |pending| && |rs| == |pending|
    ensures forall p :: 0 <= p < |pending| ==> calls[p] == Call(pending[p].0, pending[p].1, rs[p])
  {
    calls, rs := [], [];
    for p := 0 to |pending|
      invariant pool.log == old(pool.log) + calls && pool.freed == old(pool.freed)
      invariant |calls| == p && |rs| == p
      invariant forall q :: 0 <= q < p ==> calls[q] == Call(pending[q].0, pending[q].1, rs[q])
    {
      var r := pool.AllocateBlocks(pending[p].0, pending[p].1);
      rs := rs + [r];
      calls := calls + [Call(pending[p].0, pending[p].1, r)];
    }
  }

  predicate Short(r: Response, count: nat) {
    r.Granted? && Saturate(|r.segments|) < count
  }

  /** What is still missing after an answer. */
  function StillMissing(entry: (nat, nat), r: Response): (nat, nat)
    requires Short(r, entry.1)
  {
    (entry.0, entry.1 - Saturate(|r.segments|))
  }

  /** The places of the short answers, in order. */
  ghost function ShortAt(pending: seq<(nat, nat)>, rs: seq<Response>): seq<nat>
    requires |rs| <= |pending|
  {
    if rs == [] then []
    else
      var k := |rs| - 1;
      ShortAt(pending, rs[..k]) + (if Short(rs[k], pending[k].1) then [k] else [])
  }

  /** What is still missing after these answers. */
  function Missing(pending: seq<(nat, nat)>, rs: seq<Response>): seq<(nat, nat)>
    requires |rs| <= |pending|
  {
    if rs == [] then []
    else
      var k := |rs| - 1;
      Missing(pending, rs[..k]) + (if Short(rs[k], pending[k].1) then [StillMissing(pending[k], rs[k])] else [])
  }

  /** The disk groups whose answers failed. */
  function FailedIn(pending: seq<(nat, nat)>, rs: seq<Response>): seq<nat>
    requires |rs| <= |pending|
  {
    if rs == [] then []
    else
      var k := |rs| - 1;
      FailedIn(pending, rs[..k]) + (if rs[k].Failed? then [pending[k].0] else [])
  }

  function Flat(rs: seq<Response>): seq<Segment> {
    if rs == [] then [] else Flat(rs[..|rs| - 1]) + SegmentsOf(rs[|rs| - 1])
  }

  /** Sorts the answers into segments, what to ask again, and failures. */
  method Tally(pending: seq<(nat, nat)>, rs: seq<Response>)
    returns (segments: seq<Segment>, next: seq<(nat, nat)>, failed: seq<nat>)
    requires |rs| == |pending|
    ensures segments == Flat(rs) && next == Missing(pending, rs) && failed == FailedIn(pending, rs)
  {
    segments, next, failed := [], [], [];
    for p := 0 to |rs|
      invariant segments == Flat(rs[..p]) && next == Missing(pending, rs[..p]) && failed == FailedIn(pending, rs[..p])
    {
      assert rs[..p + 1][..p] == rs[..p];
      match rs[p] {
        case Granted(segs) =>
          segments := segments + segs;
          if Saturate(|segs|) < pending[p].1 {
            next := next + [(pending[p].0, pending[p].1 - Saturate(|segs|))];
          }
        case Failed => failed := failed + [pending[p].0];
      }
    }
    assert rs[..|rs|] == rs;
  }

  /** What is asked again is what the short answers left missing, one by one and in order. */
  lemma {:induction false} MissingAt(pending: seq<(nat, nat)>, rs: seq<Response>)
    requires |rs| <= |pending|
    ensures |Missing(pending, rs)| == |ShortAt(pending, rs)|
    ensures forall q :: 0 <= q < |ShortAt(pending, rs)| ==> var p := ShortAt(pending, rs)[q];
      p < |rs| && Short(rs[p], pending[p].1) && Missing(pending, rs)[q] == StillMissing(pending[p], rs[p])
  {
    if rs != [] {
      var k := |rs| - 1;
      MissingAt(pending, rs[..k]);
      forall q | 0 <= q < |ShortAt(pending, rs[..k])|
        ensures rs[..k][ShortAt(pending, rs[..k])[q]] == rs[ShortAt(pending, rs[..k])[q]] {}
    }
  }

  lemma {:induction false} ShortAtAscends(pending: seq<(nat, nat)>, rs: seq<Response>)
    requires |rs| <= |pending|
    ensures forall q :: 0 <= q < |ShortAt(pending, rs)| ==> ShortAt(pending, rs)[q] < |rs|
    ensures forall p, q :: 0 <= p < q < |ShortAt(pending, rs)| ==> ShortAt(pending, rs)[p] < ShortAt(pending, rs)[q]
  {
    if rs != [] { ShortAtAscends(pending, rs[..|rs| - 1]); }
  }

  lemma {:induction false} ShortAtAll(pending: seq<(nat, nat)>, rs: seq<Response>, p: nat)
    requires p < |rs| <= |pending|
    ensures Short(rs[p], pending[p].1) ==> p in ShortAt(pending, rs)
    decreases |rs|
  {
    var k := |rs| - 1;
    if p < k {
      assert rs[..k][p] == rs[p];
      ShortAtAll(pending, rs[..k], p);
    }
  }

  ghost predicate FirstFailed(rs: seq<Response>, p: nat)
    requires p < |rs|
  {
    rs[p].Failed? && forall q :: 0 <= q < p ==> rs[q].Granted?
  }

  /** Either no answer failed, or the first listed is the first that did. */
  lemma {:induction false} FailedFirst(pending: seq<(nat, nat)>, rs: seq<Response>) returns (p: nat)
    requires |rs| <= |pending|
    ensures FailedIn(pending, rs) == [] ==> forall q :: 0 <= q < |rs| ==> rs[q].Granted?
    ensures FailedIn(pending, rs) != [] ==> p < |rs| && FirstFailed(rs, p) && pending[p].0 == FailedIn(pending, rs)[0]
  {
    p := 0;
    if rs != [] {
      var k := |rs| - 1;
      p := FailedFirst(pending, rs[..k]);
      if FailedIn(pending, rs[..k]) == [] {
        forall q | 0 <= q < k ensures rs[q].Granted? { assert rs[..k][q].Granted?; }
        p := k;
      } else {
        forall q | 0 <= q < p ensures rs[q].Granted? { assert rs[..k][q].Granted?; }
      }
    }
  }

  // ---- What is owed ---------------------------------------------------

  /** Plan entry `i` still misses what `entry` asks for. */
  ghost predicate Owes(plan: seq<(nat, nat)>, calls: seq<Call>, who: seq<nat>, entry: (nat, nat), i: nat)
    requires |who| == |calls|
  {
    i < |plan| && entry.0 == plan[i].0 && |GrantedTo(calls, who, i)| + entry.1 == plan[i].1
  }

  /** The entries not listed have all they asked for. */
  ghost predicate RestServed(plan: seq<(nat, nat)>, calls: seq<Call>, who: seq<nat>, idx: seq<nat>)
    requires |who| == |calls|
  {
    forall i :: 0 <= i < |plan| && i !in idx ==> |GrantedTo(calls, who, i)| >= plan[i].1
  }

  ghost predicate Books(plan: seq<(nat, nat)>, calls: seq<Call>, who: seq<nat>, pending: seq<(nat, nat)>,
                        idx: seq<nat>) {
    && Served(plan, calls, who) && NoneFailed(calls)
    && |idx| == |pending| && Distinct(idx)
    && (forall p :: 0 <= p < |idx| ==> Owes(plan, calls, who, pending[p], idx[p]) && pending[p].1 <= U32_MAX)
    && RestServed(plan, calls, who, idx)
  }

  /** The calls of a round, each for the entry it is pending for. */
  ghost predicate RoundOf(pending: seq<(nat, nat)>, calls: seq<Call>, rs: seq<Response>) {
    && |calls| == |rs| == |pending|
    && forall p :: 0 <= p < |pending| ==> calls[p] == Call(pending[p].0, pending[p].1, rs[p])
  }

  /** A round serves: every call asks for what its entry misses at that point. */
  lemma RoundServes(plan: seq<(nat, nat)>, calls: seq<Call>, who: seq<nat>, pending: seq<(nat, nat)>, idx: seq<nat>,
                    more: seq<Call>, rs: seq<Response>)
    requires Books(plan, calls, who, pending, idx) && RoundOf(pending, more, rs)
    ensures Served(plan, calls + more, who + idx)
  {
    forall c | 0 <= c < |calls + more| ensures ServedBy(plan, calls + more, who + idx, c) {
      if c < |calls| {
        assert ServedBy(plan, calls, who, c);
        assert (calls + more)[..c] == calls[..c] && (who + idx)[..c] == who[..c];
      } else {
        var p := c - |calls|;
        assert Owes(plan, calls, who, pending[p], idx[p]);
        assert (calls + more)[..c] == calls + more[..p] && (who + idx)[..c] == who + idx[..p];
        GrantedToConcat(calls, who, more[..p], idx[..p], idx[p]);
        NoneGrantedTo(more[..p], idx[..p], idx[p]);
      }
    }
  }

  /** What an entry has after a round. */
  lemma AfterRound(calls: seq<Call>, who: seq<nat>, more: seq<Call>, idx: seq<nat>, i: nat)
    requires |who| == |calls| && |idx| == |more| && Distinct(idx)
    ensures i !in idx ==> GrantedTo(calls + more, who + idx, i) == GrantedTo(calls, who, i)
    ensures forall p :: 0 <= p < |idx| && idx[p] == i ==>
      GrantedTo(calls + more, who + idx, i) == GrantedTo(calls, who, i) + SegmentsOf(more[p].answer)
  {
    GrantedToConcat(calls, who, more, idx, i);
    if i !in idx { NoneGrantedTo(more, idx, i); }
    forall p | 0 <= p < |idx| && idx[p] == i ensures GrantedTo(more, idx, i) == SegmentsOf(more[p].answer) {
      GrantedOnce(more, idx, p);
    }
  }

  ghost function Picked(idx: seq<nat>, at: seq<nat>): (r: seq<nat>)
    requires forall q :: 0 <= q < |at| ==> at[q] < |idx|
    ensures |r| == |at| && forall q :: 0 <= q < |at| ==> r[q] == idx[at[q]]
  {
    seq(|at|, q requires 0 <= q < |at| => idx[at[q]])
  }

  lemma StillOwes(plan: seq<(nat, nat)>, calls: seq<Call>, who: seq<nat>, pending: seq<(nat, nat)>, idx: seq<nat>,
                  more: seq<Call>, rs: seq<Response>, p: nat)
    requires Books(plan, calls, who, pending, idx) && RoundOf(pending, more, rs)
    requires p < |rs| && Short(rs[p], pending[p].1)
    ensures Owes(plan, calls + more, who + idx, StillMissing(pending[p], rs[p]), idx[p])
  {
    assert Owes(plan, calls, who, pending[p], idx[p]);
    AfterRound(calls, who, more, idx, idx[p]);
  }

  lemma PickedHas(idx: seq<nat>, at: seq<nat>, p: nat)
    requires p < |idx| && forall q :: 0 <= q < |at| ==> at[q] < |idx|
    ensures p in at ==> idx[p] in Picked(idx, at)
  {
    if p in at {
      var q :| 0 <= q < |at| && at[q] == p;
      assert Picked(idx, at)[q] == idx[p];
    }
  }

  lemma PickedDistinct(idx: seq<nat>, at: seq<nat>)
    requires Distinct(idx) && (forall q :: 0 <= q < |at| ==> at[q] < |idx|)
    requires forall p, q :: 0 <= p < q < |at| ==> at[p] < at[q]
    ensures Distinct(Picked(idx, at))
  {}

  lemma FullAnswer(plan: seq<(nat, nat)>, calls: seq<Call>, who: seq<nat>, pending: seq<(nat, nat)>, idx: seq<nat>,
                   more: seq<Call>, rs: seq<Response>, p: nat)
    requires Books(plan, calls, who, pending, idx) && RoundOf(pending, more, rs) && NoneFailed(more)
    requires p < |rs| && !Short(rs[p], pending[p].1)
    ensures |GrantedTo(calls + more, who + idx, idx[p])| >= plan[idx[p]].1
  {
    assert Owes(plan, calls, who, pending[p], idx[p]) && more[p].answer.Granted?;
    AfterRound(calls, who, more, idx, idx[p]);
  }

  /** An entry that is not short any more, or was not pending, is served. */
  lemma NowServed(plan: seq<(nat, nat)>, calls: seq<Call>, who: seq<nat>, pending: seq<(nat, nat)>, idx: seq<nat>,
                  more: seq<Call>, rs: seq<Response>, at: seq<nat>, i: nat)
    requires Books(plan, calls, who, pending, idx) && RoundOf(pending, more, rs) && NoneFailed(more)
    requires at == ShortAt(pending, rs) && (forall q :: 0 <= q < |at| ==> at[q] < |idx|)
    requires i < |plan| && i !in Picked(idx, at)
    ensures |GrantedTo(calls + more, who + idx, i)| >= plan[i].1
  {
    if i in idx {
      var p :| 0 <= p < |idx| && idx[p] == i;
      ShortAtAll(pending, rs, p);
      PickedHas(idx, at, p);
      FullAnswer(plan, calls, who, pending, idx, more, rs, p);
    } else {
      AfterRound(calls, who, more, idx, i);
    }
  }

  /** After a round without failures the books still balance. */
  lemma BooksAfterRound(plan: seq<(nat, nat)>, calls: seq<Call>, who: seq<nat>, pending: seq<(nat, nat)>, idx: seq<nat>,
                        more: seq<Call>, rs: seq<Response>)
    returns (idx': seq<nat>)
    requires Books(plan, calls, who, pending, idx) && RoundOf(pending, more, rs) && NoneFailed(more)
    ensures Books(plan, calls + more, who + idx, Missing(pending, rs), idx')
    ensures forall q :: 0 <= q < |Missing(pending, rs)| ==> Missing(pending, rs)[q].1 > 0
  {
    var at, next := ShortAt(pending, rs), Missing(pending, rs);
    RoundServes(plan, calls, who, pending, idx, more, rs);
    MissingAt(pending, rs);
    ShortAtAscends(pending, rs);
    idx' := Picked(idx, at);
    PickedDistinct(idx, at);
    forall q | 0 <= q < |at|
      ensures Owes(plan, calls + more, who + idx, next[q], idx'[q]) && 0 < next[q].1 <= U32_MAX
    {
      StillOwes(plan, calls, who, pending, idx, more, rs, at[q]);
      assert pending[at[q]].1 <= U32_MAX;
    }
    forall i | 0 <= i < |plan| && i !in idx' ensures |GrantedTo(calls + more, who + idx, i)| >= plan[i].1 {
      NowServed(plan, calls, who, pending, idx, more, rs, at, i);
    }
    assert RestServed(plan, calls + more, who + idx, idx');
    NoneFailedConcat(calls, more);
  }

  lemma NoneFailedConcat(a: seq<Call>, b: seq<Call>)
    requires NoneFailed(a) && NoneFailed(b)
    ensures NoneFailed(a + b)
  {}

  lemma {:induction false} FlatIsGranted(calls: seq<Call>, rs: seq<Response>)
    requires |calls| == |rs| && forall p :: 0 <= p < |rs| ==> calls[p].answer == rs[p]
    ensures Flat(rs) == GrantedBy(calls)
  {
    if rs != [] { FlatIsGranted(calls[..|calls| - 1], rs[..|rs| - 1]); }
  }

  lemma FirstBooks(plan: seq<(nat, nat)>) returns (idx: seq<nat>)
    requires forall i :: 0 <= i < |plan| ==> plan[i].1 <= U32_MAX
    ensures Books(plan, [], [], plan, idx)
  {
    idx := seq(|plan|, i requires 0 <= i < |plan| => i);
    forall i | 0 <= i < |plan| ensures i in idx { assert idx[i] == i; }
  }

  lemma FailureIsFirst(calls: seq<Call>, more: seq<Call>, pending: seq<(nat, nat)>, rs: seq<Response>, p: nat)
    requires NoneFailed(calls) && RoundOf(pending, more, rs) && p < |rs| && FirstFailed(rs, p)
    ensures FirstFailure(calls + more, pending[p].0)
  {
    var c := |calls| + p;
    assert (calls + more)[c].answer.Failed?;
    forall d | 0 <= d < c ensures (calls + more)[..c][d].answer.Granted? {
      if d >= |calls| { assert rs[d - |calls|].Granted?; }
    }
  }

  // ---- The whole call -------------------------------------------------

  /** One attempt at everything pending, with the books kept beside it: `calls` and `who`
      are all the calls so far and what they were made for, `log` what came before. */
  method Round(pool: Pool, ghost plan: seq<(nat, nat)>, pending: seq<(nat, nat)>, all: seq<Segment>,
               ghost log: seq<Call>, ghost calls: seq<Call>, ghost who: seq<nat>, ghost idx: seq<nat>,
               ghost rounds: nat)
    returns (all': seq<Segment>, next: seq<(nat, nat)>, failed: seq<nat>,
             ghost calls': seq<Call>, ghost who': seq<nat>, ghost idx': seq<nat>)
    requires pool.log == log + calls
    requires Books(plan, calls, who, pending, idx) && all == GrantedBy(calls) && AtMost(who, rounds)
    modifies pool
    ensures pool.log == log + calls' && pool.freed == old(pool.freed)
    ensures all' == GrantedBy(calls') && Served(plan, calls', who') && AtMost(who', rounds + 1)
    ensures failed == [] ==> Books(plan, calls', who', next, idx')
    ensures failed == [] && next != [] ==> next[0].1 > 0
    ensures failed != [] ==> FirstFailure(calls', failed[0])
  {
    var rs;
    ghost var more;
    more, rs := AskAll(pool, pending);
    calls', who' := calls + more, who + idx;
    assert log + calls + more == log + calls';
    var segments;
    segments, next, failed := Tally(pending, rs);
    all', idx' := all + segments, idx;
    FlatIsGranted(more, rs);
    GrantedConcat(calls, more);
    AskedAgain(who, idx, rounds);
    RoundServes(plan, calls, who, pending, idx, more, rs);
    ghost var p := FailedFirst(pending, rs);
    if failed == [] {
      idx' := BooksAfterRound(plan, calls, who, pending, idx, more, rs);
    } else {
      FailureIsFirst(calls, more, pending, rs, p);
    }
  }

  /** Attempts until nothing is pending, an answer fails, or retries run out. */
  method Rounds(pool: Pool, plan: seq<(nat, nat)>)
    returns (all: seq<Segment>, pending: seq<(nat, nat)>, failed: seq<nat>, rounds: nat,
             ghost calls: seq<Call>, ghost who: seq<nat>, ghost idx: seq<nat>)
    requires forall i :: 0 <= i < |plan| ==> plan[i].1 <= U32_MAX
    modifies pool
    ensures rounds <= 1 + MAX_ALLOC_RETRIES && (failed == [] && pending != [] ==> rounds == 1 + MAX_ALLOC_RETRIES)
    ensures pool.log == old(pool.log) + calls && pool.freed == old(pool.freed)
    ensures all == GrantedBy(calls) && Served(plan, calls, who)
    ensures failed == [] ==> Books(plan, calls, who, pending, idx)
    ensures failed == [] && pending != [] ==> pending[0].1 > 0
    ensures failed != [] ==> FirstFailure(calls, failed[0])
    ensures AtMost(who, rounds)
  {
    all, pending, failed, rounds, calls, who := [], plan, [], 0, [], [];
    ghost var log := pool.log;
    idx := FirstBooks(plan);
    while rounds <= MAX_ALLOC_RETRIES && pending != []
      invariant rounds <= 1 + MAX_ALLOC_RETRIES && failed == []
      invariant pool.log == log + calls && pool.freed == old(pool.freed)
      invariant all == GrantedBy(calls) && Books(plan, calls, who, pending, idx)
      invariant AtMost(who, rounds)
      invariant rounds > 0 && pending != [] ==> pending[0].1 > 0
      decreases MAX_ALLOC_RETRIES + 1 - rounds
    {
      var next;
      ghost var idx';
      all, next, failed, calls, who, idx' := Round(pool, plan, pending, all, log, calls, who, idx, rounds);
      rounds := rounds + 1;
      if failed != [] { return; }
      pending, idx := next, idx';
    }
  }

  /** Either every entry of the plan got, from calls to its own disk group, at least
      what it asked for and nothing is given back, or everything any call granted
      is given back, once.  Call c was made for plan entry `who[c]`. */
  method AllocateBlocksParallel(pool: Pool, plan: seq<(nat, nat)>)
    returns (result: Result, rounds: nat, ghost calls: seq<Call>, ghost who: seq<nat>)
    requires forall i :: 0 <= i < |plan| ==> plan[i].1 <= U32_MAX
    modifies pool
    ensures rounds <= 4
    ensures pool.log == old(pool.log) + calls && Served(plan, calls, who) && AtMost(who, rounds)
    ensures result.Ok? ==>
      && result.segments == GrantedBy(calls) && pool.freed == old(pool.freed)
      && forall i :: 0 <= i < |plan| ==> |GrantedTo(calls, who, i)| >= plan[i].1
    ensures result.Err? ==> pool.freed == old(pool.freed) + GrantedBy(calls)
    ensures result.Err? && result.error.AllocateFailed? <==> !NoneFailed(calls)
    ensures result.Err? && result.error.AllocateFailed? ==> FirstFailure(calls, result.error.dg)
    ensures result.Err? && result.error.PartialAllocation? ==>
      && rounds == 4
      && result.error == PartialAllocation(Sum(plan), Saturate(|GrantedBy(calls)|))
      && exists i :: 0 <= i < |plan| && |GrantedTo(calls, who, i)| < plan[i].1
  {
    var all, pending, failed;
    ghost var idx;
    all, pending, failed, rounds, calls, who, idx := Rounds(pool, plan);
    if failed == [] && pending == [] { return Ok(all), rounds, calls, who; }
    pool.FreeBlocks(all);
    if failed != [] {
      result := Err(AllocateFailed(failed[0]));
    } else {
      assert Owes(plan, calls, who, pending[0], idx[0]);
      result := Err(PartialAllocation(Sum(plan), Saturate(|all|)));
    }
  }
}
