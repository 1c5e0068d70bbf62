// The compressed blocks of a replay file (file/w3g/compress.go and file/w3g/decompress.go).

module Blocks {
  import opened Wire

  /** What zlib makes of the first bytes of a block. */
  datatype Opening = Opens | Refuses(err: Error)

  /**
   * The parts that are not modelled: the CRC-32 folded to 16 bits, and zlib. `opens` says whether zlib takes the header of
   * a compressed block, `inflate` gives the bytes that can be read back from it and `ends` the error that comes after
   * them; `unread(p, k)` says how many bytes of p zlib has not read yet when k of those are still to be handed out, and
   * `spare` how many it has not read when it ends.
   */
  datatype Codec = Codec(
    sum: Bytes -> UInt16, deflate: Bytes -> Bytes, inflate: Bytes -> Bytes, opens: Bytes -> Opening,
    ends: Bytes -> Error, unread: (Bytes, nat) -> nat, spare: Bytes -> nat)

  /** Zlib has read a block whole when it hands out its last byte. */
  predicate Eager(z: Codec, packed: Bytes) {
    z.unread(packed, 0) == 0
  }

  /** The data just ends, with or without zlib's mark for it, and no input is left over. */
  predicate Finishes(z: Codec, packed: Bytes) {
    (z.ends(packed) == ErrEOF || z.ends(packed) == ErrUnexpectedEOF) && z.spare(packed) == 0
  }

  const ZERO4: Bytes := [0, 0, 0, 0]

  /** Version 1.32 widened the size fields. */
  predicate Modern(version: nat) {
    version == 0 || version >= 10032
  }

  function SizesLen(version: nat): nat {
    if Modern(version) then 8 else 4
  }

  /** Compressed bytes and the data they stand for. */
  datatype Block = Block(packed: Bytes, data: Bytes)

  function Sizes(version: nat, packed: nat, data: nat): (b: Bytes)
    ensures |b| == SizesLen(version)
  {
    if Modern(version) then LE32(packed % 0x1_0000_0000) + LE32(data % 0x1_0000_0000)
    else LE16(Lo16(packed)) + LE16(Lo16(data))
  }

  function Head(version: nat, z: Codec, packed: Bytes, data: nat): (b: Bytes)
    ensures |b| == SizesLen(version) + 4
  {
    var sizes := Sizes(version, |packed|, data);
    sizes + LE16(z.sum(sizes + ZERO4)) + LE16(z.sum(packed))
  }

  function BlockBytes(version: nat, z: Codec, blk: Block): Bytes {
    Head(version, z, blk.packed, |blk.data|) + blk.packed
  }

  function File(version: nat, z: Codec, blocks: seq<Block>): Bytes {
    if blocks == [] then [] else BlockBytes(version, z, blocks[0]) + File(version, z, blocks[1..])
  }

  function Data(blocks: seq<Block>): Bytes {
    if blocks == [] then [] else blocks[0].data + Data(blocks[1..])
  }

  function FieldLimit(version: nat): nat {
    if Modern(version) then 0x1_0000_0000 else 0x1_0000
  }

  /** Both sizes fit the fields of the header. */
  predicate Fits(version: nat, packed: nat, data: nat) {
    packed < FieldLimit(version) && data < FieldLimit(version)
  }

  /** A block that is not empty, unpacks to its data, is read whole, and fits its size fields. */
  predicate Good(version: nat, z: Codec, blk: Block) {
    && blk.data != [] && z.opens(blk.packed) == Opens && z.inflate(blk.packed) == blk.data
    && Eager(z, blk.packed) && Finishes(z, blk.packed)
    && Fits(version, |blk.packed|, |blk.data|)
  }

  predicate AllGood(version: nat, z: Codec, blocks: seq<Block>) {
    forall i | 0 <= i < |blocks| :: Good(version, z, blocks[i])
  }

  lemma {:induction false} FileAppend(version: nat, z: Codec, a: seq<Block>, b: seq<Block>)
    ensures File(version, z, a + b) == File(version, z, a) + File(version, z, b)
    decreases |a|
  {
    if a == [] {
      assert a + b == b;
    } else {
      assert (a + b)[1..] == a[1..] + b;
      FileAppend(version, z, a[1..], b);
    }
  }

  lemma {:induction false} DataAppend(a: seq<Block>, b: seq<Block>)
    ensures Data(a + b) == Data(a) + Data(b)
    decreases |a|
  {
    if a == [] {
      assert a + b == b;
    } else {
      assert (a + b)[1..] == a[1..] + b;
      DataAppend(a[1..], b);
    }
  }

  // ---- Reading a header ---------------------------------------------------

  function PackedLen(version: nat, h: Bytes): nat
    requires |h| >= SizesLen(version)
  {
    if Modern(version) then Get32(h) else Get16(h)
  }

  function DataLen(version: nat, h: Bytes): UInt32
    requires |h| >= SizesLen(version)
  {
    if Modern(version) then Get32(h[4..]) else Get16(h[2..])
  }

  /** Sizes are read back modulo the fields, so as they were if and only if they fit. */
  lemma SizesRead(version: nat, packed: nat, data: nat, tail: Bytes)
    ensures var h := Sizes(version, packed, data) + tail;
      && PackedLen(version, h) == packed % FieldLimit(version) && DataLen(version, h) == data % FieldLimit(version)
      && (PackedLen(version, h) == packed && DataLen(version, h) == data <==> Fits(version, packed, data))
  {
    hide LE32, Get32, LE16, Get16;
    var h := Sizes(version, packed, data) + tail;
    var p, q := packed % FieldLimit(version), data % FieldLimit(version);
    if Modern(version) {
      assert h == LE32(p) + (LE32(q) + tail);
      Get32OfLE32(p, LE32(q) + tail);
      Get32OfLE32(q, tail);
    } else {
      assert h == LE16(p) + (LE16(q) + tail);
      Get16OfLE16(p, LE16(q) + tail);
      Get16OfLE16(q, tail);
    }
  }

  /**
   * The header of any block reads back as its checksums and, modulo the fields, its sizes, and what follows is the block.
   * The sizes are right if and only if they fit.
   */
  lemma HeadRead(version: nat, z: Codec, blk: Block, tail: Bytes)
    ensures var r, n, m := BlockBytes(version, z, blk) + tail, SizesLen(version), FieldLimit(version);
      && |r| >= n + 4
      && PackedLen(version, r) == |blk.packed| % m && DataLen(version, r) == |blk.data| % m
      && (PackedLen(version, r) == |blk.packed| && DataLen(version, r) == |blk.data| <==>
          Fits(version, |blk.packed|, |blk.data|))
      && Get16(r[n..]) == z.sum(r[..n] + ZERO4) && Get16(r[n + 2..]) == z.sum(blk.packed)
      && r[n + 4..] == blk.packed + tail
  {
    hide LE16, Get16, Sizes, PackedLen, DataLen, Fits;
    var n, sizes := SizesLen(version), Sizes(version, |blk.packed|, |blk.data|);
    var a, b := z.sum(sizes + ZERO4), z.sum(blk.packed);
    var r := BlockBytes(version, z, blk) + tail;
    assert r == sizes + (LE16(a) + (LE16(b) + (blk.packed + tail)));
    SizesRead(version, |blk.packed|, |blk.data|, LE16(a) + (LE16(b) + (blk.packed + tail)));
    assert r[..n] == sizes;
    assert r[n..] == LE16(a) + (LE16(b) + (blk.packed + tail));
    Get16OfLE16(a, LE16(b) + (blk.packed + tail));
    assert r[n + 2..] == LE16(b) + (blk.packed + tail);
    Get16OfLE16(b, blk.packed + tail);
    assert r[n + 4..] == blk.packed + tail;
  }
}
