// Writing compressed blocks (file/w3g/compress.go).

module Compress {
  import opened Blocks
  import opened Wire

  const MAX_OLD_BLOCK: nat := 0xFFFF

  function Add32(a: UInt32, b: nat): UInt32 {
    (a + b) % 0x1_0000_0000
  }

  // ---- Blocks of one write ------------------------------------------------

  function BlockLen(version: nat, n: nat): nat {
    if !Modern(version) && n > MAX_OLD_BLOCK then MAX_OLD_BLOCK else n
  }

  function Pack(z: Codec, data: Bytes): Block {
    Block(z.deflate(data), data)
  }

  /** The blocks that one write becomes: a single one, or for old versions as many as 16-bit sizes ask for. */
  function Packed(version: nat, z: Codec, b: Bytes): seq<Block>
    decreases |b|
  {
    if b == [] then []
    else
      var n := BlockLen(version, |b|);
      [Pack(z, b[..n])] + Packed(version, z, b[n..])
  }

  lemma {:induction false} PackedData(version: nat, z: Codec, b: Bytes)
    ensures Data(Packed(version, z, b)) == b
    decreases |b|
  {
    if b != [] {
      var n := BlockLen(version, |b|);
      PackedData(version, z, b[n..]);
      assert Packed(version, z, b)[1..] == Packed(version, z, b[n..]);
      assert b == b[..n] + b[n..];
    }
  }

  /** How many: one from version 10032 on and for version 0, and before that one for every 65535 bytes begun. */
  lemma {:induction false} PackedCount(version: nat, z: Codec, b: Bytes)
    ensures version == 0 || version >= 10032 ==> |Packed(version, z, b)| == if b == [] then 0 else 1
    ensures 1 <= version < 10032 ==> |Packed(version, z, b)| == (|b| + 65534) / 65535
    decreases |b|
  {
    if b != [] {
      PackedCount(version, z, b[BlockLen(version, |b|)..]);
    }
  }

  /** Every block holds something, packed from its data, and an old version's data fits its size field. */
  predicate WellPacked(version: nat, z: Codec, blk: Block) {
    blk.data != [] && blk.packed == z.deflate(blk.data) && (!Modern(version) ==> |blk.data| <= MAX_OLD_BLOCK)
  }

  predicate AllPacked(version: nat, z: Codec, blocks: seq<Block>) {
    forall i | 0 <= i < |blocks| :: WellPacked(version, z, blocks[i])
  }

  lemma {:induction false} PackedWell(version: nat, z: Codec, b: Bytes)
    ensures AllPacked(version, z, Packed(version, z, b))
    decreases |b|
  {
    if b != [] {
      PackedWell(version, z, b[BlockLen(version, |b|)..]);
    }
  }

  // ---- One block ----------------------------------------------------------

  /** The size fields, the compressed one still zero. */
  method WriteSizes(version: nat, n: nat, buf: Buffer) returns (lenHdr: nat)
    requires buf.bytes == []
    modifies buf
    ensures buf.bytes == Sizes(version, 0, n) && lenHdr == SizesLen(version) + 4
  {
    hide LE16, LE32;
    lenHdr := 12;
    if Modern(version) {
      buf.WriteUInt32(0);
      buf.WriteUInt32(n % 0x1_0000_0000);
      assert buf.bytes == LE32(0) + LE32(n % 0x1_0000_0000);
    } else {
      lenHdr := 8;
      buf.WriteUInt16(0);
      buf.WriteUInt16(Lo16(n));
      assert buf.bytes == LE16(0) + LE16(Lo16(n));
    }
  }

  /** The compressed size, once it is known. */
  method FillLen(version: nat, buf: Buffer, n: nat, ghost data: nat, ghost post: Bytes)
    requires buf.bytes == Sizes(version, 0, data) + post
    modifies buf
    ensures buf.bytes == Sizes(version, n, data) + post
  {
    hide LE16, LE32, Sizes;
    PatchLen(version, n, data, post);
    if Modern(version) {
      buf.WriteUInt32At(0, n % 0x1_0000_0000);
    } else {
      buf.WriteUInt16At(0, Lo16(n));
    }
  }

  /** Header and compressed data in one buffer; the compressed size and the checksums are filled in last. */
  method WriteBlock(version: nat, z: Codec, data: Bytes) returns (b: Bytes)
    ensures b == BlockBytes(version, z, Pack(z, data))
  {
    hide Sizes, BlockBytes;
    var buf := new Buffer([]);
    ghost var packed := z.deflate(data);
    var lenHdr := WriteSizes(version, |data|, buf);
    buf.WriteBlob(ZERO4);
    buf.WriteBlob(z.deflate(data));
    assert buf.bytes == Sizes(version, 0, |data|) + (ZERO4 + packed);
    FillLen(version, buf, |buf.bytes| - lenHdr, |data|, ZERO4 + packed);
    b := FillSums(version, z, buf, lenHdr, data);
  }

  method FillSums(version: nat, z: Codec, buf: Buffer, lenHdr: nat, ghost data: Bytes) returns (b: Bytes)
    requires lenHdr == SizesLen(version) + 4
    requires buf.bytes == Sizes(version, |z.deflate(data)|, |data|) + (ZERO4 + z.deflate(data))
    modifies buf
    ensures b == BlockBytes(version, z, Pack(z, data))
  {
    hide LE16, Sizes;
    ghost var sizes, packed := Sizes(version, |z.deflate(data)|, |data|), z.deflate(data);
    PatchSums(sizes, z.sum(sizes + ZERO4), z.sum(packed), packed);
    assert buf.bytes[..lenHdr] == sizes + ZERO4;
    buf.WriteUInt16At(lenHdr - 4, z.sum(buf.bytes[..lenHdr]));
    assert buf.bytes[lenHdr..] == packed;
    buf.WriteUInt16At(lenHdr - 2, z.sum(buf.bytes[lenHdr..]));
    b := buf.bytes;
  }

  lemma PatchLen(version: nat, packed: nat, data: nat, post: Bytes)
    ensures var b := Sizes(version, 0, data) + post;
      Sizes(version, packed, data) + post ==
        if Modern(version) then b[..0] + LE32(packed % 0x1_0000_0000) + b[4..] else b[..0] + LE16(Lo16(packed)) + b[2..]
  {
    hide LE16, LE32;
    var b := Sizes(version, 0, data) + post;
    if Modern(version) {
      assert b[4..] == LE32(data % 0x1_0000_0000) + post;
    } else {
      assert b[2..] == LE16(Lo16(data)) + post;
    }
  }

  lemma PatchSums(sizes: Bytes, head: UInt16, sum: UInt16, packed: Bytes)
    ensures var b, n := sizes + (ZERO4 + packed), |sizes|;
      var c := b[..n] + LE16(head) + b[n + 2..];
      && c[n + 4..] == packed
      && c[..n + 2] + LE16(sum) + c[n + 4..] == sizes + LE16(head) + LE16(sum) + packed
  {
    hide LE16;
    var b, n := sizes + (ZERO4 + packed), |sizes|;
    assert b[..n] == sizes;
    assert b[n + 2..] == [0, 0] + packed;
    var c := b[..n] + LE16(head) + b[n + 2..];
    assert c == sizes + LE16(head) + ([0, 0] + packed);
    assert c[..n + 2] == sizes + LE16(head);
    assert c[n + 4..] == packed;
  }

  // ---- The block compressor -----------------------------------------------

  class BlockCompressor {
    const version: nat
    const z: Codec
    var sizeWritten: UInt32
    var sizeTotal: UInt32
    var numBlocks: UInt32

    /** What has been written to the file, and the blocks it is made of. */
    var file: Bytes
    ghost var blocks: seq<Block>

    ghost predicate Valid()
      reads this
    {
      && AllPacked(version, z, blocks) && file == File(version, z, blocks)
      && numBlocks == |blocks| % 0x1_0000_0000 && sizeWritten == |file| % 0x1_0000_0000
    }

    constructor (version: nat, z: Codec)
      ensures Valid() && this.version == version && this.z == z && blocks == [] && sizeTotal == 0
    {
      this.version, this.z := version, z;
      sizeWritten, sizeTotal, numBlocks, file, blocks := 0, 0, 0, [], [];
    }

    /** One turn of the loop of Write: a block, counted. */
    method WriteOne(data: Bytes)
      requires Valid() && data != [] && (!Modern(version) ==> |data| <= MAX_OLD_BLOCK)
      modifies this
      ensures Valid() && blocks == old(blocks) + [Pack(z, data)] && sizeTotal == Add32(old(sizeTotal), |data|)
    {
      hide BlockBytes, File, Add32;
      var b := WriteBlock(version, z, data);
      FileOne(version, z, blocks, Pack(z, data));
      Add32Mod(|file|, |b|);
      Add32Mod(|blocks|, 1);
      file := file + b;
      sizeWritten := Add32(sizeWritten, |b|);
      sizeTotal := Add32(sizeTotal, |data|);
      numBlocks := Add32(numBlocks, 1);
      blocks := blocks + [Pack(z, data)];
    }

    /** Write: every byte is written, in order, and counted. */
    method Write(b: Bytes)
      requires Valid()
      modifies this
      ensures Valid() && blocks == old(blocks) + Packed(version, z, b)
      ensures Data(blocks) == Data(old(blocks)) + b
      ensures sizeTotal == Add32(old(sizeTotal), |b|)
    {
      hide Valid, Data, Packed, Add32;
      var rest := b;
      ghost var done := 0;
      Add32None(sizeTotal);
      while rest != []
        invariant Valid()
        invariant 0 <= done <= |b| && rest == b[done..]
        invariant blocks + Packed(version, z, rest) == old(blocks) + Packed(version, z, b)
        invariant sizeTotal == Add32(old(sizeTotal), done) && |rest| == |b| - done
        decreases |rest|
      {
        var lenBuf := BlockLen(version, |rest|);
        PackedNext(version, z, blocks, rest);
        Add32Again(old(sizeTotal), done, lenBuf);
        WriteOne(rest[..lenBuf]);
        assert rest[lenBuf..] == b[done + lenBuf..];
        rest := rest[lenBuf..];
        done := done + lenBuf;
      }
      assert Packed(version, z, []) == [] && blocks + [] == blocks by {
        PackedNone(version, z);
      }
      assert done == |b|;
      DataAppend(old(blocks), Packed(version, z, b));
      PackedData(version, z, b);
    }
  }

  lemma PackedNone(version: nat, z: Codec)
    ensures Packed(version, z, []) == []
  {
  }

  lemma PackedNext(version: nat, z: Codec, blocks: seq<Block>, b: Bytes)
    requires b != []
    ensures var n := BlockLen(version, |b|);
      blocks + Packed(version, z, b) == blocks + [Pack(z, b[..n])] + Packed(version, z, b[n..])
  {
  }

  lemma Add32None(a: UInt32)
    ensures Add32(a, 0) == a
  {
  }

  /** A count reduced before something is added, and after. */
  lemma Add32Mod(a: nat, n: nat)
    ensures Add32(a % 0x1_0000_0000, n) == (a + n) % 0x1_0000_0000
  {
    ModThenAdd(a, n);
  }

  lemma Add32Again(a: UInt32, m: nat, n: nat)
    ensures Add32(Add32(a, m), n) == Add32(a, m + n)
  {
    Add32Mod(a + m, n);
  }

  lemma FileOne(version: nat, z: Codec, blocks: seq<Block>, blk: Block)
    ensures File(version, z, blocks + [blk]) == File(version, z, blocks) + BlockBytes(version, z, blk)
  {
    FileAppend(version, z, blocks, [blk]);
    assert File(version, z, [blk]) == BlockBytes(version, z, blk) + File(version, z, []);
  }
}
