// The buffered compressor of a replay file (file/w3g/compress.go), and what a reader gets from the file it wrote.

module Replays {
  import opened Blocks
  import opened Compress
  import Decompress
  import opened Peekers
  import opened Wire

  /** A 32-bit count of data bytes, with the padding taken out. */
  predicate Counts(sizeTotal: UInt32, data: nat, padding: nat) {
    sizeTotal == (data - padding) % 0x1_0000_0000
  }

  lemma CountMore(sizeTotal: UInt32, data: nat, padding: nat, n: nat)
    requires Counts(sizeTotal, data, padding)
    ensures Counts(Add32(sizeTotal, n), data + n, padding)
  {
    ModThenAdd(data - padding, n);
  }

  lemma CountPadding(sizeTotal: UInt32, data: nat, padding: nat, n: nat)
    requires Counts(sizeTotal, data, padding)
    ensures Counts(Decompress.Sub32(sizeTotal, n), data, padding + n)
  {
    ModThenAdd(data - padding, -(n as int));
  }

  // ---- What the buffer makes of the caller's writes ------------------------

  /** The writes that have gone out to the file, and the bytes held back. */
  datatype Buffered = Buffered(sent: seq<Bytes>, buf: Bytes)

  /** bufio.Writer.Write: what does not fit goes out with a full buffer or, if that is empty, at once. */
  function Put(size: nat, w: Buffered, p: Bytes): (r: Buffered)
    requires |w.buf| <= size && 0 < size
    ensures |r.buf| <= size
    decreases |p|, |w.buf|
  {
    var n := size - |w.buf|;
    if |p| <= n then Buffered(w.sent, w.buf + p)
    else if w.buf == [] then Buffered(w.sent + [p], [])
    else Put(size, Buffered(w.sent + [w.buf + p[..n]], []), p[n..])
  }

  function PutAll(size: nat, writes: seq<Bytes>): (r: Buffered)
    requires 0 < size
    ensures |r.buf| <= size
  {
    if writes == [] then Buffered([], [])
    else Put(size, PutAll(size, writes[..|writes| - 1]), writes[|writes| - 1])
  }

  /** Close: the buffer goes out filled up with zeros. */
  function Closed(size: nat, w: Buffered): seq<Bytes>
    requires |w.buf| <= size
  {
    if w.buf == [] then w.sent else w.sent + [w.buf + Zeros(size - |w.buf|)]
  }

  function PackedAll(version: nat, z: Codec, sent: seq<Bytes>): seq<Block> {
    if sent == [] then []
    else PackedAll(version, z, sent[..|sent| - 1]) + Packed(version, z, sent[|sent| - 1])
  }

  /** The blocks of the file that the caller's writes become. */
  function BlocksOf(version: nat, z: Codec, size: nat, writes: seq<Bytes>): seq<Block>
    requires 0 < size
  {
    PackedAll(version, z, Closed(size, PutAll(size, writes)))
  }

  lemma PackedAllNext(version: nat, z: Codec, sent: seq<Bytes>, p: Bytes)
    ensures PackedAll(version, z, sent + [p]) == PackedAll(version, z, sent) + Packed(version, z, p)
  {
    assert (sent + [p])[..|sent|] == sent;
  }

  /** No chunk is longer than n. */
  predicate AllWithin(chunks: seq<Bytes>, n: nat) {
    forall i | 0 <= i < |chunks| :: |chunks[i]| <= n
  }

  lemma {:induction false} PutWithin(size: nat, w: Buffered, p: Bytes, n: nat)
    requires |w.buf| <= size && 0 < size && AllWithin(w.sent, n) && size <= n && |p| <= n
    ensures AllWithin(Put(size, w, p).sent, n)
    decreases |p|, |w.buf|
  {
    var k := size - |w.buf|;
    if |p| > k && w.buf != [] {
      PutWithin(size, Buffered(w.sent + [w.buf + p[..k]], []), p[k..], n);
    }
  }

  lemma {:induction false} PutAllWithin(size: nat, writes: seq<Bytes>, n: nat)
    requires 0 < size <= n && AllWithin(writes, n)
    ensures AllWithin(PutAll(size, writes).sent, n)
    decreases |writes|
  {
    if writes != [] {
      var front := writes[..|writes| - 1];
      PutAllWithin(size, front, n);
      PutWithin(size, PutAll(size, front), writes[|writes| - 1], n);
    }
  }

  lemma {:induction false} PackedWithin(version: nat, z: Codec, b: Bytes, n: nat)
    requires |b| <= n
    ensures forall i | 0 <= i < |Packed(version, z, b)| :: WrittenFrom(version, z, Packed(version, z, b)[i], n)
    decreases |b|
  {
    if b != [] {
      PackedWithin(version, z, b[BlockLen(version, |b|)..], n);
    }
  }

  /** A block packed from at most n bytes. */
  predicate WrittenFrom(version: nat, z: Codec, blk: Block, n: nat) {
    WellPacked(version, z, blk) && |blk.data| <= n
  }

  lemma {:induction false} PackedAllWithin(version: nat, z: Codec, sent: seq<Bytes>, n: nat)
    requires AllWithin(sent, n)
    ensures forall i | 0 <= i < |PackedAll(version, z, sent)| :: WrittenFrom(version, z, PackedAll(version, z, sent)[i], n)
    decreases |sent|
  {
    hide WrittenFrom;
    if sent != [] {
      PackedAllWithin(version, z, sent[..|sent| - 1], n);
      PackedWithin(version, z, sent[|sent| - 1], n);
    }
  }

  /** Every block holds something, packed from no more bytes than the buffer or the longest write has. */
  lemma BlocksWithin(version: nat, z: Codec, size: nat, writes: seq<Bytes>, n: nat)
    requires 0 < size <= n && AllWithin(writes, n)
    ensures var blocks := BlocksOf(version, z, size, writes);
      forall i | 0 <= i < |blocks| :: WrittenFrom(version, z, blocks[i], n)
  {
    hide WrittenFrom;
    PutAllWithin(size, writes, n);
    PackedAllWithin(version, z, Closed(size, PutAll(size, writes)), n);
  }

  /** All chunks are n long. */
  predicate AllFull(chunks: seq<Bytes>, n: nat) {
    forall i | 0 <= i < |chunks| :: |chunks[i]| == n
  }

  lemma {:induction false} PutFull(size: nat, w: Buffered, p: Bytes)
    requires |w.buf| <= size && 0 < size && AllFull(w.sent, size) && |p| <= size
    ensures AllFull(Put(size, w, p).sent, size)
    decreases |p|, |w.buf|
  {
    var n := size - |w.buf|;
    if |p| > n {
      PutFull(size, Buffered(w.sent + [w.buf + p[..n]], []), p[n..]);
    }
  }

  lemma {:induction false} PutAllFull(size: nat, writes: seq<Bytes>)
    requires 0 < size && AllWithin(writes, size)
    ensures AllFull(PutAll(size, writes).sent, size)
    decreases |writes|
  {
    if writes != [] {
      var front := writes[..|writes| - 1];
      PutAllFull(size, front);
      PutFull(size, PutAll(size, front), writes[|writes| - 1]);
    }
  }

  lemma {:induction false} PackedAllFull(version: nat, z: Codec, sent: seq<Bytes>, n: nat)
    requires 0 < n && AllFull(sent, n) && (Modern(version) || n <= MAX_OLD_BLOCK)
    ensures PackedAll(version, z, sent) == seq(|sent|, i requires 0 <= i < |sent| => Pack(z, sent[i]))
    decreases |sent|
  {
    if sent != [] {
      var last := sent[|sent| - 1];
      PackedAllFull(version, z, sent[..|sent| - 1], n);
      assert last[..n] == last && last[n..] == [];
      assert Packed(version, z, last) == [Pack(z, last)];
    }
  }

  /** If no write is longer than the buffer, every block is one full buffer, the last one by its padding. */
  lemma BlocksAreFull(version: nat, z: Codec, size: nat, writes: seq<Bytes>)
    requires 0 < size && AllWithin(writes, size) && (Modern(version) || size <= MAX_OLD_BLOCK)
    ensures var blocks := BlocksOf(version, z, size, writes);
      forall i | 0 <= i < |blocks| :: |blocks[i].data| == size && blocks[i] == Pack(z, blocks[i].data)
  {
    PutAllFull(size, writes);
    PackedAllFull(version, z, Closed(size, PutAll(size, writes)), size);
  }

  /** A codec that is sound on data of at most n bytes is all it takes. */
  lemma GoodWithin(version: nat, z: Codec, size: nat, writes: seq<Bytes>, n: nat)
    requires 0 < size <= n && AllWithin(writes, n)
    requires forall b: Bytes | 0 < |b| <= n && (!Modern(version) ==> |b| <= MAX_OLD_BLOCK) :: Good(version, z, Pack(z, b))
    ensures AllGood(version, z, BlocksOf(version, z, size, writes))
  {
    hide Good, BlocksOf;
    BlocksWithin(version, z, size, writes, n);
    var blocks := BlocksOf(version, z, size, writes);
    forall i | 0 <= i < |blocks|
      ensures Good(version, z, blocks[i])
    {
      assert WrittenFrom(version, z, blocks[i], n);
      assert blocks[i] == Pack(z, blocks[i].data);
    }
  }

  /** A BlockCompressor behind a bufio.Writer. */
  class Compressor {
    const bc: BlockCompressor
    const size: nat
    var buf: Bytes

    /** How many bytes the caller has written, and how many Close has added. */
    ghost var written: nat
    ghost var padding: nat

    /** The writes that have gone out. */
    ghost var sent: seq<Bytes>

    ghost predicate Valid()
      reads this, bc
    {
      && bc.Valid() && |buf| <= size && 0 < size
      && bc.blocks == PackedAll(bc.version, bc.z, sent)
      && |Data(bc.blocks)| + |buf| == written + padding
      && Counts(bc.sizeTotal, |Data(bc.blocks)|, padding)
    }

    /** All bytes so far, in order. */
    ghost function Contents(): Bytes
      reads this, bc
    {
      Data(bc.blocks) + buf
    }

    ghost function View(): Buffered
      reads this
    {
      Buffered(sent, buf)
    }

    constructor (version: nat, z: Codec, size: nat)
      requires size > 0
      ensures Valid() && fresh(bc) && bc.version == version && bc.z == z && this.size == size
      ensures Contents() == [] && written == 0 && View() == Buffered([], [])
    {
      bc := new BlockCompressor(version, z);
      this.size, buf, written, padding, sent := size, [], 0, 0, [];
    }

    /** A write to the file, past the buffer. */
    method Through(p: Bytes)
      requires Valid() && buf == []
      modifies this`written, this`sent, bc
      ensures Valid() && Contents() == old(Contents()) + p && written == old(written) + |p|
      ensures View() == Buffered(old(sent) + [p], [])
    {
      hide bc.Valid, Data, Counts, PackedAll;
      CountMore(bc.sizeTotal, |Data(bc.blocks)|, padding, |p|);
      PackedAllNext(bc.version, bc.z, sent, p);
      bc.Write(p);
      written, sent := written + |p|, sent + [p];
      assert Data(bc.blocks) + [] == Data(bc.blocks);
    }

    /** bufio.Writer.Flush */
    method Flush()
      requires Valid()
      modifies this`buf, this`sent, bc
      ensures Valid() && Contents() == old(Contents())
      ensures View() == if old(buf) == [] then old(View()) else Buffered(old(sent) + [old(buf)], [])
    {
      hide bc.Valid, Data, Counts, PackedAll;
      CountMore(bc.sizeTotal, |Data(bc.blocks)|, padding, |buf|);
      if buf != [] {
        PackedAllNext(bc.version, bc.z, sent, buf);
        bc.Write(buf);
        buf, sent := [], sent + [buf];
      }
      assert Data(bc.blocks) + [] == Data(bc.blocks);
    }

    /** What fits goes into the buffer. */
    method Fill(p: Bytes)
      requires Valid() && |buf| + |p| <= size
      modifies this`buf, this`written
      ensures Valid() && Contents() == old(Contents()) + p && written == old(written) + |p|
      ensures View() == Buffered(old(sent), old(buf) + p)
    {
      hide bc.Valid, Data, Counts, PackedAll;
      buf := buf + p;
      written := written + |p|;
    }

    /** bufio.Writer.Write: while there is more than fits, a full buffer or, if it is empty, everything goes out. */
    method Write(p: Bytes)
      requires Valid()
      modifies this`buf, this`written, this`sent, bc
      ensures Valid() && Contents() == old(Contents()) + p && written == old(written) + |p|
      ensures |old(buf)| <= size && View() == Put(size, old(View()), p)
    {
      hide Valid, Contents, Put;
      var rest := p;
      ghost var done := 0;
      Bounded();
      assert p[..0] == [];
      while |rest| > size - |buf|
        invariant Valid() && |buf| <= size
        invariant 0 <= done <= |p| && rest == p[done..]
        invariant Contents() == old(Contents()) + p[..done] && written == old(written) + done
        invariant Put(size, old(View()), p) == Put(size, View(), rest)
        decreases |rest|, |buf|
      {
        PutUnfolds(size, View(), rest);
        var n := if buf == [] then |rest| else size - |buf|;
        assert p[..done + n] == p[..done] + rest[..n];
        if buf == [] {
          assert rest[..n] == rest;
          Through(rest);
        } else {
          Fill(rest[..n]);
          Flush();
        }
        Bounded();
        assert rest[n..] == p[done + n..];
        rest := rest[n..];
        done := done + n;
      }
      PutUnfolds(size, View(), rest);
      assert p == p[..done] + rest;
      Fill(rest);
    }

    lemma Bounded()
      requires Valid()
      ensures |buf| <= size && 0 < size
    {
    }

    lemma BlocksAre()
      requires Valid()
      ensures bc.blocks == PackedAll(bc.version, bc.z, sent)
    {
    }

    /** The zeros that fill up the last block, taken out of the count. */
    method Pad(n: nat)
      requires Valid() && |buf| + n <= size
      modifies this, bc`sizeTotal
      ensures Valid() && Contents() == old(Contents()) + Zeros(n) && written == old(written)
      ensures View() == Buffered(old(sent), old(buf) + Zeros(n))
    {
      hide Data, File, AllPacked, Counts, PackedAll;
      buf := buf + Zeros(n);
      CountPadding(bc.sizeTotal, |Data(bc.blocks)|, padding, n);
      bc.sizeTotal := Decompress.Sub32(bc.sizeTotal, n);
      padding := padding + n;
    }

    /** Close. Whatever was written and closed before, the count is that of the caller's bytes, modulo 2^32. */
    method Close() returns (ghost pad: nat)
      requires Valid()
      modifies this, bc
      ensures Valid() && written == old(written)
      ensures |old(buf)| <= size && View() == Buffered(Closed(size, old(View())), [])
      ensures bc.sizeTotal == written % 0x1_0000_0000
      ensures Data(bc.blocks) == old(Contents()) + Zeros(pad) && pad < size
    {
      var a := size - |buf|;
      pad := 0;
      if a > 0 && |buf| > 0 {
        pad := a;
        Pad(a);
      }
      assert old(Contents()) + Zeros(0) == old(Contents());
      assert old(buf) + Zeros(0) == old(buf);
      Flush();
      assert Contents() == Data(bc.blocks);
    }
  }

  /** One turn of the loop of Write. */
  lemma PutUnfolds(size: nat, w: Buffered, p: Bytes)
    requires |w.buf| <= size && 0 < size
    ensures var n := size - |w.buf|;
      Put(size, w, p) ==
        if |p| <= n then Buffered(w.sent, w.buf + p)
        else if w.buf == [] then Put(size, Buffered(w.sent + [p], []), p[|p|..])
        else Put(size, Buffered(w.sent + [w.buf + p[..n]], []), p[n..])
  {
  }

  // ---- From writer to reader ----------------------------------------------

  lemma {:induction false} ConcatAppend(a: seq<Bytes>, b: seq<Bytes>)
    ensures Concat(a + b) == Concat(a) + Concat(b)
    decreases |a|
  {
    if a == [] {
      assert a + b == b;
    } else {
      assert (a + b)[1..] == a[1..] + b;
      ConcatAppend(a[1..], b);
    }
  }

  lemma ConcatNext(writes: seq<Bytes>, i: nat)
    requires i < |writes|
    ensures Concat(writes[..i + 1]) == Concat(writes[..i]) + writes[i]
  {
    assert writes[..i + 1] == writes[..i] + [writes[i]];
    ConcatAppend(writes[..i], [writes[i]]);
    assert Concat([writes[i]]) == writes[i] + Concat([]);
  }

  /** There are no more blocks than bytes. */
  lemma {:induction false} FewBlocks(version: nat, z: Codec, blocks: seq<Block>)
    requires AllPacked(version, z, blocks)
    ensures |blocks| <= |Data(blocks)|
    decreases |blocks|
  {
    if blocks != [] {
      assert WellPacked(version, z, blocks[0]);
      assert forall i | 0 <= i < |blocks[1..]| :: blocks[1..][i] == blocks[i + 1];
      FewBlocks(version, z, blocks[1..]);
    }
  }

  /** A written file is sound for a fresh reader, if and only if its blocks are good. */
  lemma WrittenHolds(version: nat, z: Codec, blocks: seq<Block>, total: UInt32)
    requires z.sum([]) == 0 && |blocks| < 0x1_0000_0000
    ensures var s := Decompress.Fresh(File(version, z, blocks), total, |blocks|);
      && (Decompress.Holds(version, z, s, blocks) <==> AllGood(version, z, blocks))
      && Decompress.Stream(s, blocks) == Data(blocks)
  {
    hide File, Data, AllGood;
  }

  method WriteAll(version: nat, z: Codec, size: nat, writes: seq<Bytes>)
    returns (c: Compressor, ghost pad: nat)
    requires size > 0
    ensures c.Valid() && c.bc.version == version && c.bc.z == z
    ensures Data(c.bc.blocks) == Concat(writes) + Zeros(pad) && pad < size
    ensures c.bc.sizeTotal == |Concat(writes)| % 0x1_0000_0000
    ensures c.bc.blocks == BlocksOf(version, z, size, writes)
  {
    hide c.Valid, c.Contents, Put, Closed, PackedAll;
    c := new Compressor(version, z, size);
    for i := 0 to |writes|
      invariant c.Valid() && c.bc.version == version && c.bc.z == z && c.size == size && fresh(c) && fresh(c.bc)
      invariant c.Contents() == Concat(writes[..i]) && c.written == |Concat(writes[..i])|
      invariant c.View() == PutAll(size, writes[..i])
    {
      ConcatNext(writes, i);
      assert writes[..i + 1][..i] == writes[..i];
      c.Write(writes[i]);
    }
    assert writes[..|writes|] == writes;
    pad := c.Close();
    c.BlocksAre();
  }

  /**
   * From the caller's writes, of any sizes and through a buffer of any size, to reads of any lengths. If the blocks that
   * the writes become are good, what is read is the front of what was written, without the padding, and all of it if
   * enough is asked for.
   */
  method WriteThenRead(version: nat, z: Codec, size: nat, writes: seq<Bytes>, lens: seq<UInt32>) returns (out: Bytes)
    requires z.sum([]) == 0 && size > 0 && |Concat(writes)| + size < 0x1_0000_0000
    ensures AllGood(version, z, BlocksOf(version, z, size, writes)) ==>
            out == Concat(writes)[..Min(Decompress.Sum(lens), |Concat(writes)|)]
  {
    hide Concat, Data, File, AllPacked, AllGood, BlocksOf, Decompress.Holds, Decompress.Stream, Decompress.Share;
    var c, pad := WriteAll(version, z, size, writes);
    ghost var blocks := c.bc.blocks;
    FewBlocks(version, z, blocks);
    WrittenHolds(version, z, blocks, c.bc.sizeTotal);
    var d := new Decompress.Decompressor(version, z, c.bc.file, c.bc.sizeTotal, c.bc.numBlocks);
    assert d.View() == Decompress.Fresh(File(version, z, blocks), c.bc.sizeTotal, |blocks|);
    FrontOf(d.View(), blocks, Concat(writes), pad, Decompress.Sum(lens));
    out := d.ReadEach(lens, blocks);
  }

  /** Of data with padding behind it a reader's share ends with the data. */
  lemma FrontOf(s: Decompress.State, blocks: seq<Block>, data: Bytes, pad: nat, l: nat)
    requires Decompress.Stream(s, blocks) == data + Zeros(pad) && s.sizeTotal == |data|
    ensures Decompress.Share(l, s, blocks) == Min(l, |data|)
    ensures Decompress.Stream(s, blocks)[..Min(l, |data|)] == data[..Min(l, |data|)]
  {
    hide Decompress.Stream, Zeros;
  }
}
