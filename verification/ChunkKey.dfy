/** Chunk keys: `/chunk/` followed by the 16 big-endian bytes of the id.

`KeyToChunkId` inverts `ChunkKeyOf`, and the byte order of keys is the
numeric order of ids, so a key scan walks the chunks in id order. */
module ChunkKey {
  import opened Lexical
  import opened Options

  type byte = b: int | 0 <= b < 256

  type Bytes = seq<byte>

  const U64 := 0x1_0000_0000_0000_0000

  type u64 = n: int | 0 <= n < U64

  datatype ChunkId = ChunkId(high: u64, low: u64)

  /** `b"/chunk/"` */
  const Prefix: Bytes := [0x2f, 0x63, 0x68, 0x75, 0x6e, 0x6b, 0x2f]

  function Pow256(w: nat): (p: nat)
    ensures p > 0
  {
    if w == 0 then 1 else 256 * Pow256(w - 1)
  }

  function ToBe(n: nat, w: nat): (s: Bytes)
    ensures |s| == w
  {
    if w == 0 then [] else ToBe(n / 256, w - 1) + [n % 256]
  }

  function FromBe(s: Bytes): (n: nat)
    ensures n < Pow256(|s|)
  {
    if s == [] then 0 else FromBe(s[..|s| - 1]) * 256 + s[|s| - 1]
  }

  function ChunkKeyOf(id: ChunkId): Bytes {
    Prefix + ToBe(id.high, 8) + ToBe(id.low, 8)
  }

  function KeyToChunkId(key: Bytes): Option<ChunkId> {
    if |key| != 23 || key[..7] != Prefix then None
    else
      assert Pow256(8) == U64 by { EightBytes(); }
      Some(ChunkId(FromBe(key[7..15]), FromBe(key[15..23])))
  }

  lemma EightBytes()
    ensures Pow256(8) == U64
  {
    assert Pow256(4) == 0x1_0000_0000;
    assert Pow256(8) == 256 * (256 * (256 * (256 * Pow256(4))));
  }

  lemma {:induction false} BeRoundTrip(n: nat, w: nat)
    requires n < Pow256(w)
    ensures FromBe(ToBe(n, w)) == n
  {
    if w > 0 {
      BeRoundTrip(n / 256, w - 1);
      assert ToBe(n, w)[..w - 1] == ToBe(n / 256, w - 1);
    }
  }

  lemma {:induction false} BytesRoundTrip(s: Bytes)
    ensures ToBe(FromBe(s), |s|) == s
  {
    if s != [] {
      BytesRoundTrip(s[..|s| - 1]);
      assert FromBe(s) / 256 == FromBe(s[..|s| - 1]) && FromBe(s) % 256 == s[|s| - 1];
    }
  }

  lemma KeyOfIdParses(id: ChunkId)
    ensures KeyToChunkId(ChunkKeyOf(id)) == Some(id)
  {
    EightBytes();
    BeRoundTrip(id.high, 8);
    BeRoundTrip(id.low, 8);
    var key := ChunkKeyOf(id);
    assert key[..7] == Prefix && key[7..15] == ToBe(id.high, 8) && key[15..23] == ToBe(id.low, 8);
  }

  /** Every key that parses is the key of the id it parses to. */
  lemma ParsedKeyIsKeyOfId(key: Bytes)
    requires KeyToChunkId(key).Some?
    ensures ChunkKeyOf(KeyToChunkId(key).value) == key
  {
    BytesRoundTrip(key[7..15]);
    BytesRoundTrip(key[15..23]);
    assert key == key[..7] + key[7..15] + key[15..23];
  }

  // ---- Order ----------------------------------------------------------

  lemma {:induction false} BeOrder(m: nat, n: nat, w: nat)
    requires m < Pow256(w) && n < Pow256(w)
    ensures LexLess(ToBe(m, w), ToBe(n, w)) <==> m < n
  {
    if w > 0 {
      BeOrder(m / 256, n / 256, w - 1);
      LexAppend(ToBe(m / 256, w - 1), ToBe(n / 256, w - 1), [m % 256], [n % 256]);
      BeRoundTrip(m / 256, w - 1);
      BeRoundTrip(n / 256, w - 1);
    }
  }

  /** Keys sort as the 128-bit numbers their ids are. */
  lemma KeyOrderIsIdOrder(a: ChunkId, b: ChunkId)
    ensures LexLess(ChunkKeyOf(a), ChunkKeyOf(b))
            <==> a.high < b.high || (a.high == b.high && a.low < b.low)
  {
    EightBytes();
    BeOrder(a.high, b.high, 8);
    BeOrder(a.low, b.low, 8);
    BeRoundTrip(a.high, 8);
    BeRoundTrip(b.high, 8);
    assert ChunkKeyOf(a) == Prefix + (ToBe(a.high, 8) + ToBe(a.low, 8));
    assert ChunkKeyOf(b) == Prefix + (ToBe(b.high, 8) + ToBe(b.low, 8));
    LexPrefix(Prefix, ToBe(a.high, 8) + ToBe(a.low, 8), ToBe(b.high, 8) + ToBe(b.low, 8));
    LexAppend(ToBe(a.high, 8), ToBe(b.high, 8), ToBe(a.low, 8), ToBe(b.low, 8));
  }
}
