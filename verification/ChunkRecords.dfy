/** Chunk records: strips, their blocks, and what makes a set of records sound. */
module ChunkRecords {
  import opened Allocator
  import KeyedLists

  type Id = nat

  datatype State = Init | Active | Sealed | Deleted {
    function Rank(): nat {
      match this case Init => 0 case Active => 1 case Sealed => 2 case Deleted => 3
    }
  }

  datatype Strip = Strip(offset: nat, sequence: nat, capacity: nat, segments: seq<Segment>)

  datatype Chunk = Chunk(state: State, strips: seq<Strip>, capacity: nat, sealedLength: nat)

  /** The order in which a chunk's states may follow each other. */
  lemma StatesInOrder()
    ensures Init.Rank() < Active.Rank() < Sealed.Rank() < Deleted.Rank()
  {}

  const U32 := 0x1_0000_0000

  /** The sum of the strip capacities, in 32 bits. */
  function Capacity(strips: seq<Strip>): nat {
    if strips == [] then 0
    else (Capacity(strips[..|strips| - 1]) + strips[|strips| - 1].capacity) % U32
  }

  lemma {:induction false} CapacityConcat(s: seq<Strip>, t: seq<Strip>)
    ensures Capacity(s + t) == (Capacity(s) + Capacity(t)) % U32
  {
    if t == [] {
      assert s + t == s;
    } else {
      CapacityConcat(s, t[..|t| - 1]);
      assert (s + t)[..|s + t| - 1] == s + t[..|t| - 1];
      WrapOnce(Capacity(s), Capacity(t[..|t| - 1]), t[|t| - 1].capacity);
    }
  }

  lemma WrapOnce(a: nat, b: nat, c: nat)
    ensures ((a + b) % U32 + c) % U32 == (a + (b + c) % U32) % U32
  {
    var x := a + b + c;
    assert (a + b) % U32 + c == x - U32 * ((a + b) / U32);
    assert a + (b + c) % U32 == x - U32 * ((b + c) / U32);
    Shifted(x, (a + b) / U32);
    Shifted(x, (b + c) / U32);
  }

  lemma Shifted(x: int, k: int)
    ensures (x - U32 * k) % U32 == x % U32
  {}

  function Blocks(strips: seq<Strip>): seq<Segment> {
    if strips == [] then [] else Blocks(strips[..|strips| - 1]) + strips[|strips| - 1].segments
  }

  /** How often the strips name a block. */
  ghost function Count(strips: seq<Strip>, b: Segment): nat {
    if strips == [] then 0 else Count(strips[..|strips| - 1], b) + multiset(strips[|strips| - 1].segments)[b]
  }

  ghost predicate Once(strips: seq<Strip>) {
    forall b :: Count(strips, b) <= 1
  }

  ghost predicate Covered(strips: seq<Strip>, held: set<Segment>) {
    forall b :: Count(strips, b) > 0 ==> b in held
  }

  ghost predicate Apart(s: seq<Strip>, t: seq<Strip>) {
    forall b :: Count(s, b) == 0 || Count(t, b) == 0
  }

  ghost predicate Among(blocks: set<Segment>, strips: seq<Strip>) {
    forall b :: b in blocks ==> Count(strips, b) > 0
  }

  predicate LiveIn(store: map<Id, Chunk>, id: Id) {
    id in store && store[id].state != Deleted
  }

  /** No live record names a block twice or a block that is not held, and no two
      live records name the same block. */
  ghost predicate Sound(store: map<Id, Chunk>, held: set<Segment>) {
    && (forall id :: LiveIn(store, id) ==> Once(store[id].strips) && Covered(store[id].strips, held))
    && (forall i, j :: LiveIn(store, i) && LiveIn(store, j) && i != j ==> Apart(store[i].strips, store[j].strips))
  }

  ghost predicate Sized(store: map<Id, Chunk>) {
    forall id :: id in store ==> store[id].capacity == Capacity(store[id].strips)
  }

  /** Records only move forward, and a deleted one never changes again. */
  ghost predicate Forward(before: map<Id, Chunk>, after: map<Id, Chunk>) {
    forall id :: id in before ==>
      && id in after && before[id].state.Rank() <= after[id].state.Rank()
      && (before[id].state == Deleted ==> after[id] == before[id])
  }

  /** Strip i carries sequence i, as far as 32 bits can count. */
  ghost predicate InOrder(strips: seq<Strip>) {
    forall i :: 0 <= i < |strips| && i <= U32_MAX ==> strips[i].sequence == i
  }

  /** What a record must satisfy to be put under `id` without harm: its blocks are
      held, named once, and named by no other live record. */
  ghost predicate Fits(store: map<Id, Chunk>, held: set<Segment>, id: Id, strips: seq<Strip>) {
    && Once(strips) && Covered(strips, held)
    && forall j :: LiveIn(store, j) && j != id ==> Apart(store[j].strips, strips)
  }

  /** The blocks of the other live records are held. */
  ghost predicate OthersHeld(store: map<Id, Chunk>, held: set<Segment>, id: Id) {
    forall j :: LiveIn(store, j) && j != id ==> Covered(store[j].strips, held)
  }

  /** Blocks held now that were not held at `base`, each named once. */
  ghost predicate NewlyHeld(strips: seq<Strip>, base: set<Segment>, held: set<Segment>) {
    Once(strips) && forall b :: Count(strips, b) > 0 ==> b in held && b !in base
  }

  /** Blocks granted for a strip that no live record names yet. */
  ghost predicate Unclaimed(store: map<Id, Chunk>, held: set<Segment>, strip: Strip) {
    && Once([strip]) && Covered([strip], held)
    && forall j :: LiveIn(store, j) ==> Apart(store[j].strips, [strip])
  }

  // ---- Counting -------------------------------------------------------

  lemma {:induction false} BlocksCount(strips: seq<Strip>, b: Segment)
    ensures multiset(Blocks(strips))[b] == Count(strips, b)
  {
    if strips != [] { BlocksCount(strips[..|strips| - 1], b); }
  }

  lemma {:induction false} CountConcat(s: seq<Strip>, t: seq<Strip>, b: Segment)
    ensures Count(s + t, b) == Count(s, b) + Count(t, b)
  {
    if t == [] {
      assert s + t == s;
    } else {
      CountConcat(s, t[..|t| - 1], b);
      assert (s + t)[..|s + t| - 1] == s + t[..|t| - 1];
    }
  }

  /** A strip among others, and the others without it. */
  lemma CountAt(strips: seq<Strip>, i: nat, b: Segment)
    requires i < |strips|
    ensures Count(strips, b) == Count([strips[i]], b) + Count(strips[..i] + strips[i + 1..], b)
  {
    assert strips == strips[..i] + [strips[i]] + strips[i + 1..];
    CountConcat(strips[..i] + [strips[i]], strips[i + 1..], b);
    CountConcat(strips[..i], [strips[i]], b);
    CountConcat(strips[..i], strips[i + 1..], b);
  }

  /** What one strip adds. */
  lemma OneMoreStrip(strips: seq<Strip>, s: Strip, b: Segment)
    ensures Capacity([]) == 0 && Capacity([s]) == s.capacity % U32
    ensures Capacity(strips + [s]) == (Capacity(strips) + s.capacity) % U32
    ensures Count([], b) == 0 && Count(strips + [s], b) == Count(strips, b) + multiset(s.segments)[b]
    ensures Blocks([]) == [] && Blocks(strips + [s]) == Blocks(strips) + s.segments
  {
    assert [s][..0] == [];
    assert (strips + [s])[..|strips|] == strips;
  }

  // ---- What keeps the records sound -----------------------------------

  lemma PutSoundIff(store: map<Id, Chunk>, held: set<Segment>, held': set<Segment>, id: Id, c: Chunk)
    requires Sound(store, held) && OthersHeld(store, held', id)
    ensures Sound(store[id := c], held') <==> c.state == Deleted || Fits(store, held', id, c.strips)
  {
    var store' := store[id := c];
    forall j | j != id ensures LiveIn(store', j) == LiveIn(store, j) {}
    assert LiveIn(store', id) <==> c.state != Deleted;
    if Sound(store', held') && c.state != Deleted {
      forall j: Id | LiveIn(store, j) && j != id ensures Apart(store[j].strips, c.strips) {
        assert LiveIn(store', j);
        assert Apart(store'[j].strips, store'[id].strips);
      }
    }
  }

  lemma PutForwardIff(store: map<Id, Chunk>, id: Id, c: Chunk)
    requires c.state != Deleted || LiveIn(store, id)
    ensures Forward(store, store[id := c]) <==> id !in store || store[id].state.Rank() <= c.state.Rank()
  {}

  lemma ForwardTransitive(a: map<Id, Chunk>, b: map<Id, Chunk>, c: map<Id, Chunk>)
    requires Forward(a, b) && Forward(b, c)
    ensures Forward(a, c)
  {}

  lemma HeldGrows(store: map<Id, Chunk>, held: set<Segment>, held': set<Segment>)
    requires Sound(store, held) && held <= held'
    ensures Sound(store, held')
  {}

  /** Freeing some blocks of one live record leaves the others' blocks held, and
      leaves the records sound exactly when it freed nothing. */
  lemma FreeOwn(store: map<Id, Chunk>, held: set<Segment>, id: Id, freed: set<Segment>)
    requires Sound(store, held) && LiveIn(store, id) && Among(freed, store[id].strips)
    ensures OthersHeld(store, held - freed, id)
    ensures Sound(store, held - freed) <==> freed == {}
  {
    if b :| b in freed {
      assert Count(store[id].strips, b) > 0 && b !in held - freed;
      assert !Covered(store[id].strips, held - freed);
    } else {
      assert held - freed == held;
    }
    forall j: Id | LiveIn(store, j) && j != id ensures Covered(store[j].strips, held - freed) {
      assert Apart(store[j].strips, store[id].strips);
    }
  }

  /** Part of a sound record, with only blocks of the other part freed, still fits. */
  lemma PartFits(store: map<Id, Chunk>, held: set<Segment>, id: Id, kept: seq<Strip>, gone: seq<Strip>,
                 freed: set<Segment>)
    requires Sound(store, held) && LiveIn(store, id)
    requires forall b :: Count(store[id].strips, b) == Count(gone, b) + Count(kept, b)
    requires Among(freed, gone)
    ensures Fits(store, held - freed, id, kept)
    ensures Once(gone) && Covered(gone, held) && Among(freed, store[id].strips)
  {
    forall j: Id | LiveIn(store, j) && j != id ensures Apart(store[j].strips, kept) {
      assert Apart(store[j].strips, store[id].strips);
    }
  }

  /** Strips that fit, with one more of unclaimed blocks, fit. */
  lemma UnclaimedFits(store: map<Id, Chunk>, held: set<Segment>, id: Id, index: nat, freed: set<Segment>, strip: Strip)
    requires Sound(store, held) && LiveIn(store, id) && index < |store[id].strips|
    requires Unclaimed(store, held, strip) && Among(freed, [store[id].strips[index]])
    ensures Fits(store, held - freed, id, store[id].strips[index := strip])
  {
    var strips := store[id].strips;
    var rest := strips[..index] + strips[index + 1..];
    forall b ensures Count(strips, b) == Count([strips[index]], b) + Count(rest, b) { CountAt(strips, index, b); }
    PartFits(store, held, id, rest, [strips[index]], freed);
    var strips' := strips[index := strip];
    forall b ensures Count(strips', b) == Count([strip], b) + Count(rest, b) {
      CountAt(strips', index, b);
      assert strips'[..index] + strips'[index + 1..] == rest;
    }
    assert Apart(strips, [strip]);
    forall j: Id | LiveIn(store, j) && j != id ensures Apart(store[j].strips, strips') {
      assert Apart(store[j].strips, rest) && Apart(store[j].strips, [strip]);
    }
  }

  /** A sound record, or none, with newly granted strips added fits. */
  lemma GrownFits(store: map<Id, Chunk>, held: set<Segment>, held': set<Segment>, id: Id, base: seq<Strip>,
                  added: seq<Strip>)
    requires Sound(store, held) && held <= held' && NewlyHeld(added, held, held')
    requires base == [] || (LiveIn(store, id) && base == store[id].strips)
    ensures Fits(store, held', id, base + added)
  {
    forall b ensures Count(base + added, b) == Count(base, b) + Count(added, b) { CountConcat(base, added, b); }
    forall j: Id | LiveIn(store, j) && j != id ensures Apart(store[j].strips, base + added) {
      assert Apart(store[j].strips, base);
    }
  }

  lemma GrantIsUnclaimed(store: map<Id, Chunk>, held: set<Segment>, held': set<Segment>, strip: Strip)
    requires Sound(store, held) && NewlyHeld([strip], held, held')
    ensures Unclaimed(store, held', strip)
  {}

  lemma StripsGrow(base: seq<Strip>, added: seq<Strip>, s: Strip, before: set<Segment>, held: set<Segment>,
                   held': set<Segment>)
    requires NewlyHeld(added, before, held) && NewlyHeld([s], held, held') && before <= held <= held'
    requires s.sequence == (Saturate(|base|) + |added|) % U32
    ensures NewlyHeld(added + [s], before, held')
    ensures InOrder(base + added) ==> InOrder(base + (added + [s]))
  {
    forall b ensures Count(added + [s], b) == Count(added, b) + Count([s], b) { CountConcat(added, [s], b); }
    assert base + (added + [s]) == (base + added) + [s];
  }

  // ---- Range deletes --------------------------------------------------

  function SaturatingAdd(a: nat, b: nat): (r: nat)
    ensures r <= a + b && r <= 0xffff_ffff && (r == a + b || r == 0xffff_ffff)
  {
    if a + b <= U32_MAX then a + b else U32_MAX
  }

  predicate Overlaps(s: Strip, offset: nat, size: nat) {
    s.offset < SaturatingAdd(offset, size) && offset < SaturatingAdd(s.offset, s.capacity)
  }

  /** The strips a range delete keeps, or (with `hit`) the ones it removes. */
  function Select(strips: seq<Strip>, offset: nat, size: nat, hit: bool): seq<Strip> {
    if strips == [] then []
    else
      var s := strips[|strips| - 1];
      Select(strips[..|strips| - 1], offset, size, hit) + (if Overlaps(s, offset, size) == hit then [s] else [])
  }

  lemma SelectLast(strips: seq<Strip>, offset: nat, size: nat, hit: bool, b: Segment)
    requires strips != []
    ensures var s := strips[|strips| - 1];
      Count(Select(strips, offset, size, hit), b) ==
      Count(Select(strips[..|strips| - 1], offset, size, hit), b) +
      if Overlaps(s, offset, size) == hit then multiset(s.segments)[b] else 0
  {
    var s, chosen := strips[|strips| - 1], Select(strips[..|strips| - 1], offset, size, hit);
    assert (chosen + [s])[..|chosen|] == chosen && chosen + [] == chosen;
  }

  /** Every strip is kept or removed, and every block with it. */
  lemma {:induction false} SelectSplits(strips: seq<Strip>, offset: nat, size: nat, b: Segment)
    ensures Count(strips, b) ==
      Count(Select(strips, offset, size, true), b) + Count(Select(strips, offset, size, false), b)
  {
    if strips != [] {
      var k := |strips| - 1;
      SelectSplits(strips[..k], offset, size, b);
      SelectLast(strips, offset, size, true, b);
      SelectLast(strips, offset, size, false, b);
    }
  }

  /** Strip by strip: removed exactly where the test hits, and as often as it was there. */
  lemma {:induction false} SelectMembers(strips: seq<Strip>, offset: nat, size: nat, hit: bool, s: Strip)
    ensures multiset(Select(strips, offset, size, hit))[s] ==
            if Overlaps(s, offset, size) == hit then multiset(strips)[s] else 0
  {
    if strips != [] {
      var k := |strips| - 1;
      SelectMembers(strips[..k], offset, size, hit, s);
      assert strips == strips[..k] + [strips[k]];
    }
  }

  /** The chosen strips stay in order. */
  lemma SelectInOrder(strips: seq<Strip>, offset: nat, size: nat, hit: bool)
    ensures KeyedLists.Filtered(Select(strips, offset, size, hit), strips,
                                (s: Strip) => Overlaps(s, offset, size) == hit)
  {
    var keep := (s: Strip) => Overlaps(s, offset, size) == hit;
    SelectFilters(strips, offset, size, hit, keep);
    KeyedLists.FilteredIff(Select(strips, offset, size, hit), strips, keep);
  }

  lemma {:induction false} SelectFilters(strips: seq<Strip>, offset: nat, size: nat, hit: bool, keep: Strip -> bool)
    requires forall s :: keep(s) <==> Overlaps(s, offset, size) == hit
    ensures Select(strips, offset, size, hit) == KeyedLists.Retain(strips, keep)
  {
    if strips != [] { SelectFilters(strips[..|strips| - 1], offset, size, hit, keep); }
  }

  ghost predicate InBoth(u: nat, s: Strip, offset: nat, size: nat) {
    s.offset <= u < SaturatingAdd(s.offset, s.capacity) && offset <= u < SaturatingAdd(offset, size)
  }

  /** The test for removing a strip is that strip and range share a unit, except
      that an empty range strictly inside a strip (or an empty strip strictly
      inside the range) also counts as a hit. */
  lemma OverlapsIff(s: Strip, offset: nat, size: nat)
    requires s.offset <= U32_MAX && offset <= U32_MAX
    ensures Overlaps(s, offset, size) <==>
      || (exists u :: InBoth(u, s, offset, size))
      || (SaturatingAdd(offset, size) == offset && s.offset < offset < SaturatingAdd(s.offset, s.capacity))
      || (SaturatingAdd(s.offset, s.capacity) == s.offset && offset < s.offset < SaturatingAdd(offset, size))
  {
    var u := if s.offset < offset then offset else s.offset;
    if Overlaps(s, offset, size) && offset < SaturatingAdd(offset, size) {
      assert s.offset < SaturatingAdd(s.offset, s.capacity) ==> InBoth(u, s, offset, size);
    }
  }

  /** Every strip is laid down at chunk offset 0, so what a range delete removes
      depends on where the range starts, and hardly on where it ends. */
  lemma FreshStripRemovedIff(s: Strip, offset: nat, size: nat)
    requires s.offset == 0 && s.capacity <= U32_MAX && offset <= U32_MAX
    ensures Overlaps(s, offset, size) <==> offset < s.capacity && (offset > 0 || size > 0)
  {}
}
