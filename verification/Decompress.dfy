// Reading the data back from compressed blocks (file/w3g/decompress.go).

module Decompress {
  import opened Blocks
  import opened Peekers
  import opened Wire

  /** Go's subtraction on uint32. */
  function Sub32(a: UInt32, b: nat): UInt32 {
    (a - b) % 0x1_0000_0000
  }

  /**
   * The counters, what is left of the file, whether there is a zlib reader yet, and the current block: its compressed
   * bytes and their checksum field, the compressed bytes that the file did not have, what zlib has not handed out yet
   * and the error that comes after it, and lim.N, the compressed bytes that zlib has not read yet.
   */
  datatype State = State(
    sizeTotal: UInt32,
    sizeBlock: UInt32,
    numBlocks: UInt32,
    r: Bytes,
    open: bool,
    input: Bytes,
    crcData: UInt16,
    missing: nat,
    pending: Bytes,
    last: Error,
    lim: nat)

  function Fresh(file: Bytes, sizeTotal: UInt32, numBlocks: UInt32): State {
    State(sizeTotal, 0, numBlocks, file, false, [], 0, 0, [], ErrEOF, 0)
  }

  // ---- One turn of Read ---------------------------------------------------

  /** closeBlock */
  function Close(z: Codec, s: State): Result {
    if s.sizeBlock > 0 || s.lim > 0 then Err(ErrUnexpectedEOF)
    else if s.crcData != z.sum(s.input) then Err(ErrInvalidChecksum)
    else OK
  }

  /** The last part of nextBlock: zlib gets a block of that many bytes, all taken from the file at once. */
  function Opened(z: Codec, s: State, packed: nat): (State, Result) {
    var got := Min(packed, |s.r|);
    var input := s.r[..got];
    var data := z.inflate(input);
    var s1 := s.(r := s.r[got..], input := input, missing := packed - got,
                 lim := z.unread(input, |data|) + packed - got);
    match z.opens(input)
    case Opens => (s1.(open := true, pending := data, last := z.ends(input)), OK)
    case Refuses(err) => (s1.(pending := [], last := err), Err(err))
  }

  /** nextBlock */
  function Next(version: nat, z: Codec, s: State): (State, Result) {
    var n := SizesLen(version);
    if s.numBlocks == 0 then (s, Err(ErrEOF))
    else if Close(z, s) != OK then (s, Close(z, s))
    else
      var s1 := s.(numBlocks := s.numBlocks - 1);
      if |s.r| < n + 4 then (s1.(r := []), Err(if s.r == [] then ErrEOF else ErrUnexpectedEOF))
      else
        var packed, rest := PackedLen(version, s.r), s.r[n + 4..];
        var s2 := s1.(sizeBlock := DataLen(version, s.r), crcData := Get16(s.r[n + 2..]), r := rest);
        if Get16(s.r[n..]) != z.sum(s.r[..n] + ZERO4) then (s2, Err(ErrInvalidChecksum))
        else
          Opened(z, s2, packed)
  }

  lemma NextOpens(version: nat, z: Codec, s: State)
    ensures Next(version, z, s).1 == OK ==> Next(version, z, s).0.open
  {
    hide PackedLen, DataLen, Get16;
  }

  datatype Turn = Turn(state: State, out: Bytes, err: Result)

  /**
   * What is read from an open block when `want` bytes are asked for. A read past the end of the block takes zlib to its
   * end; so does dropping the rest of the block at the end of the data. An end with nothing read is passed on, and so is
   * an error.
   */
  function Deliver(z: Codec, s: State, want: nat): Turn {
    var nn := Min(want, |s.pending|);
    var out := s.pending[..nn];
    var s1 := s.(sizeTotal := Sub32(s.sizeTotal, nn), sizeBlock := Sub32(s.sizeBlock, nn), pending := s.pending[nn..]);
    if nn < want then
      var s2 := s1.(lim := z.spare(s.input) + s.missing);
      Turn(s2, out, if s.last == ErrUnexpectedEOF || (s.last == ErrEOF && nn > 0) then Close(z, s2) else Err(s.last))
    else
      var s2 := if s1.sizeTotal == 0 && s1.sizeBlock > 0
                then s1.(sizeBlock := Sub32(s1.sizeBlock, |s1.pending|), pending := [],
                         lim := z.spare(s.input) + s.missing)
                else s1.(lim := z.unread(s.input, |s1.pending|) + s.missing);
      Turn(s2, out, if s2.sizeBlock > 0 then OK else Close(z, s2))
  }

  /** A block whose header was refused still counts as open; without a zlib reader that is a nil pointer. */
  function Step(version: nat, z: Codec, s: State, want: nat): Turn {
    if s.sizeBlock > 0 then
      if s.open then Deliver(z, s, want) else Turn(s, [], Panic)
    else
      var (s1, e) := Next(version, z, s);
      if e != OK then Turn(s1, [], e) else Deliver(z, s1, want)
  }

  /** A turn that goes on has read something or has used up a block, on any file. */
  lemma StepProgress(version: nat, z: Codec, s: State, want: nat)
    requires want > 0
    ensures var t := Step(version, z, s, want);
      && |t.out| <= want && t.state.numBlocks <= s.numBlocks
      && (t.err.OK? ==> |t.out| > 0 || t.state.numBlocks < s.numBlocks)
  {
    hide PackedLen, DataLen, Get16;
  }

  /**
   * A turn panics exactly when there is no zlib reader and a block counts as open; a turn that goes on has a reader, and
   * it is not lost.
   */
  lemma StepPanicsIff(version: nat, z: Codec, s: State, want: nat)
    ensures var t := Step(version, z, s, want);
      && (t.err == Panic <==> !s.open && s.sizeBlock > 0)
      && (t.err == OK || s.open ==> t.state.open)
  {
    hide PackedLen, DataLen, Get16;
  }

  // ---- All turns of Read --------------------------------------------------

  /** The turns of a Read with `want` bytes still to fill. */
  function Turns(version: nat, z: Codec, s: State, want: nat): (t: Turn)
    ensures |t.out| <= want
    decreases want, s.numBlocks
  {
    if want == 0 then Turn(s, [], OK)
    else
      StepProgress(version, z, s, want);
      var t := Step(version, z, s, want);
      if t.err != OK then t else Behind(t.out, Turns(version, z, t.state, want - |t.out|))
  }

  function Behind(out: Bytes, t: Turn): Turn {
    Turn(t.state, out + t.out, t.err)
  }

  /** How many bytes Read tries to fill: the slice, cut to the declared total if its length as a uint32 is more. */
  function Want(l: nat, sizeTotal: UInt32): nat {
    if l % 0x1_0000_0000 > sizeTotal then sizeTotal else l
  }

  /** Read into a slice of l bytes, on any file. */
  function ReadInto(version: nat, z: Codec, s: State, l: nat): Turn {
    if s.sizeTotal == 0 then Turn(s, [], Err(ErrEOF)) else Turns(version, z, s, Want(l, s.sizeTotal))
  }

  /** So does a Read, and never in a later turn. */
  lemma ReadPanicsIff(version: nat, z: Codec, s: State, l: nat)
    ensures ReadInto(version, z, s, l).err == Panic <==> !s.open && s.sizeBlock > 0 && s.sizeTotal > 0 && l > 0
  {
    hide Step;
    if s.sizeTotal > 0 && l > 0 {
      var want := Want(l, s.sizeTotal);
      StepPanicsIff(version, z, s, want);
      StepProgress(version, z, s, want);
      var t := Step(version, z, s, want);
      if t.err == OK {
        TurnsStayOpen(version, z, t.state, want - |t.out|);
      }
    }
  }

  lemma {:induction false} TurnsStayOpen(version: nat, z: Codec, s: State, want: nat)
    requires s.open
    ensures var t := Turns(version, z, s, want); t.err != Panic && t.state.open
    decreases want, s.numBlocks
  {
    hide Step;
    if want > 0 {
      StepPanicsIff(version, z, s, want);
      StepProgress(version, z, s, want);
      var t := Step(version, z, s, want);
      if t.err == OK {
        TurnsStayOpen(version, z, t.state, want - |t.out|);
      }
    }
  }

  /** The header of a file's first block has the right checksum, and zlib takes the block. */
  predicate FirstOpens(version: nat, z: Codec, file: Bytes)
    requires |file| >= SizesLen(version) + 4
  {
    var n := SizesLen(version);
    && Get16(file[n..]) == z.sum(file[..n] + ZERO4)
    && z.opens(file[n + 4..][..Min(PackedLen(version, file), |file| - n - 4)]) == Opens
  }

  lemma FirstNext(version: nat, z: Codec, file: Bytes, total: UInt32, blocks: UInt32)
    requires |file| >= SizesLen(version) + 4 && z.sum([]) == 0 && blocks > 0
    ensures var (s, e) := Next(version, z, Fresh(file, total, blocks));
      && e != Panic && (e == OK <==> FirstOpens(version, z, file)) && (s.open <==> FirstOpens(version, z, file))
      && s.sizeBlock == DataLen(version, file) && s.sizeTotal == total
  {
    hide Get16, DataLen, PackedLen;
  }

  lemma DeliverStaysOpen(z: Codec, s: State, want: nat)
    ensures Deliver(z, s, want).state.open == s.open && Deliver(z, s, want).err != Panic
  {
  }

  /**
   * Two Reads of a fresh reader, of a file whose first block speaks of data: the second one panics exactly if that
   * block does not open, which the first one says.
   */
  lemma SecondReadPanicsIff(version: nat, z: Codec, file: Bytes, total: UInt32, blocks: UInt32, l: nat)
    requires |file| >= SizesLen(version) + 4 && DataLen(version, file) > 0
    requires z.sum([]) == 0 && total > 0 && blocks > 0 && l > 0
    ensures var t := ReadInto(version, z, Fresh(file, total, blocks), l);
      && (!FirstOpens(version, z, file) ==> t.out == [] && t.err.Err?)
      && (ReadInto(version, z, t.state, l).err == Panic <==> !FirstOpens(version, z, file))
  {
    hide FirstOpens, Next, Deliver, DataLen;
    var s, want := Fresh(file, total, blocks), Want(l, total);
    FirstNext(version, z, file, total, blocks);
    DeliverStaysOpen(z, Next(version, z, s).0, want);
    StepProgress(version, z, s, want);
    var t := Step(version, z, s, want);
    if t.err == OK {
      TurnsStayOpen(version, z, t.state, want - |t.out|);
    }
    ReadPanicsIff(version, z, ReadInto(version, z, s, l).state, l);
  }

  /** Such a file, for any codec: a header with a wrong checksum. */
  lemma WrongChecksumPanics(version: nat, z: Codec, total: UInt32, l: nat)
    requires z.sum([]) == 0 && total > 0 && l > 0
    ensures var sizes := Sizes(version, 1, 1);
      var file := sizes + LE16(Lo16(z.sum(sizes + ZERO4) + 1)) + LE16(0);
      var t := ReadInto(version, z, Fresh(file, total, 1), l);
      t.out == [] && t.err == Err(ErrInvalidChecksum) && ReadInto(version, z, t.state, l).err == Panic
  {
    hide LE16, Get16, Sizes, DataLen, PackedLen, Deliver;
    var n, sizes := SizesLen(version), Sizes(version, 1, 1);
    var wrong := Lo16(z.sum(sizes + ZERO4) + 1);
    var file := sizes + LE16(wrong) + LE16(0);
    SizesRead(version, 1, 1, LE16(wrong) + LE16(0));
    assert file == sizes + (LE16(wrong) + LE16(0));
    assert file[..n] == sizes && file[n..] == LE16(wrong) + LE16(0);
    Get16OfLE16(wrong, LE16(0));
    SecondReadPanicsIff(version, z, file, total, 1, l);
  }

  // ---- Sound files --------------------------------------------------------

  /** The file goes on with these blocks; the counters agree with them and the current block is sound. */
  predicate Holds(version: nat, z: Codec, s: State, blocks: seq<Block>) {
    && AllGood(version, z, blocks)
    && |blocks| == s.numBlocks && File(version, z, blocks) <= s.r
    && s.sizeBlock == |s.pending| && s.missing == 0 && s.crcData == z.sum(s.input)
    && if s.pending == [] then s.lim == 0
       else s.open && s.last == z.ends(s.input) && Eager(z, s.input) && Finishes(z, s.input)
  }

  /** The data still to come. */
  function Stream(s: State, blocks: seq<Block>): Bytes {
    s.pending + Data(blocks)
  }

  /** The front of a file with a block in it. */
  lemma FileStarts(version: nat, z: Codec, blocks: seq<Block>, r: Bytes)
    requires AllGood(version, z, blocks) && blocks != [] && File(version, z, blocks) <= r
    ensures var n, blk := SizesLen(version), blocks[0];
      && |r| >= n + 4
      && PackedLen(version, r) == |blk.packed| && DataLen(version, r) == |blk.data|
      && Get16(r[n..]) == z.sum(r[..n] + ZERO4) && Get16(r[n + 2..]) == z.sum(blk.packed)
      && |blk.packed| <= |r[n + 4..]| && r[n + 4..][..|blk.packed|] == blk.packed
      && File(version, z, blocks[1..]) <= r[n + 4..][|blk.packed|..]
  {
    hide Get16, PackedLen, DataLen, BlockBytes, Fits;
    var tail := File(version, z, blocks[1..]) + r[|File(version, z, blocks)|..];
    assert r == BlockBytes(version, z, blocks[0]) + tail;
    assert Good(version, z, blocks[0]);
    HeadRead(version, z, blocks[0], tail);
  }

  /** The compressed size that a block's header speaks of. */
  function HeadLen(version: nat, blk: Block): (k: nat)
    ensures k <= |blk.packed|
  {
    |blk.packed| % FieldLimit(version)
  }

  /**
   * What the reader makes of any block, from a state in which it is done with the last one. It takes the compressed bytes
   * that the header speaks of. Those are the block, and the file goes on behind it, if and only if both sizes fit;
   * otherwise it goes on in the middle of the compressed bytes.
   */
  lemma NextOfAny(version: nat, z: Codec, s: State, blk: Block, tail: Bytes)
    requires s.numBlocks > 0 && Close(z, s) == OK && s.r == BlockBytes(version, z, blk) + tail
    ensures var (s1, e) := Next(version, z, s);
      var k := HeadLen(version, blk);
      && e == (if z.opens(blk.packed[..k]) == Opens then OK else Err(z.opens(blk.packed[..k]).err))
      && s1.input == blk.packed[..k] && s1.r == blk.packed[k..] + tail
      && s1.sizeBlock == |blk.data| % FieldLimit(version) && s1.crcData == z.sum(blk.packed)
      && (s1.input == blk.packed && s1.r == tail && s1.sizeBlock == |blk.data| <==>
          Fits(version, |blk.packed|, |blk.data|))
  {
    hide Get16, PackedLen, DataLen, BlockBytes;
    HeadRead(version, z, blk, tail);
    var n, k := SizesLen(version), HeadLen(version, blk);
    assert s.r[n + 4..][..k] == blk.packed[..k];
    assert s.r[n + 4..][k..] == blk.packed[k..] + tail;
  }

  /** A block that was cut like that is not finished without an error, unless the checksums happen to be the same. */
  lemma CutBlockFails(version: nat, z: Codec, s: State, blk: Block, tail: Bytes, want: nat)
    requires s.numBlocks > 0 && Close(z, s) == OK && s.r == BlockBytes(version, z, blk) + tail
    requires z.sum(blk.packed[..HeadLen(version, blk)]) != z.sum(blk.packed)
    ensures var t := Deliver(z, Next(version, z, s).0, want); t.err != OK || t.state.sizeBlock > 0
  {
    hide Next, BlockBytes;
    NextOfAny(version, z, s, blk, tail);
  }

  lemma NextHolds(version: nat, z: Codec, s: State, blocks: seq<Block>)
    requires Holds(version, z, s, blocks) && s.pending == [] && blocks != []
    ensures var (s1, e) := Next(version, z, s);
      && e == OK && Holds(version, z, s1, blocks[1..]) && s1.pending == blocks[0].data
      && s1.sizeTotal == s.sizeTotal && s1.sizeBlock > 0
  {
    hide Get16, PackedLen, DataLen, File;
    FileStarts(version, z, blocks, s.r);
    assert Good(version, z, blocks[0]);
  }

  /** From a sound block the bytes asked for are read, up to its end, and no counter wraps. */
  lemma DeliverHolds(version: nat, z: Codec, s: State, blocks: seq<Block>, want: nat)
    requires Holds(version, z, s, blocks) && s.pending != [] && 0 < want <= s.sizeTotal
    ensures var t := Deliver(z, s, want);
      && t.err == OK && t.out == s.pending[..Min(want, |s.pending|)] && |t.out| > 0
      && t.state.sizeTotal == s.sizeTotal - |t.out|
      && Holds(version, z, t.state, blocks)
      && (t.state.sizeTotal > 0 ==> t.state.pending == s.pending[|t.out|..])
  {
    hide File, AllGood;
  }

  /**
   * A read that stops at the very end of a block, sound but for how much zlib has read by then: it succeeds exactly when
   * zlib has read it all.
   */
  lemma ExactEndIff(z: Codec, s: State)
    requires s.pending != [] && s.sizeBlock == |s.pending| <= s.sizeTotal && s.missing == 0 && s.crcData == z.sum(s.input)
    ensures Deliver(z, s, |s.pending|).out == s.pending
    ensures Deliver(z, s, |s.pending|).err == if Eager(z, s.input) then OK else Err(ErrUnexpectedEOF)
  {
  }

  /**
   * And if zlib has not, the reader is stuck: with data and blocks still to come, every later Read gets nothing, answers
   * ErrUnexpectedEOF and changes nothing.
   */
  lemma LazyBlockSticks(version: nat, z: Codec, s: State, l: nat)
    requires s.pending != [] && s.sizeBlock == |s.pending| < s.sizeTotal && s.numBlocks > 0 && l > 0
    requires !Eager(z, s.input)
    ensures var t := Deliver(z, s, |s.pending|).state;
      t.sizeTotal > 0 && ReadInto(version, z, t, l) == Turn(t, [], Err(ErrUnexpectedEOF))
  {
    var t := Deliver(z, s, |s.pending|).state;
    assert t.sizeBlock == 0 && t.lim > 0;
    assert Want(l, t.sizeTotal) > 0;
    StepProgress(version, z, t, Want(l, t.sizeTotal));
    assert Step(version, z, t, Want(l, t.sizeTotal)) == Turn(t, [], Err(ErrUnexpectedEOF));
  }

  /**
   * A turn on a sound file: at its end EOF and nothing else; before it some bytes, which are the next ones of the
   * stream, and the file stays sound.
   */
  lemma StepHolds(version: nat, z: Codec, s: State, blocks: seq<Block>, want: nat) returns (left: seq<Block>)
    requires Holds(version, z, s, blocks) && 0 < want <= s.sizeTotal
    ensures var t := Step(version, z, s, want);
      && Holds(version, z, t.state, left)
      && (Stream(s, blocks) == [] ==> t == Turn(s, [], Err(ErrEOF)) && left == blocks)
      && (Stream(s, blocks) != [] ==>
            && t.err == OK && 0 < |t.out| <= want && t.out <= Stream(s, blocks)
            && t.state.sizeTotal == s.sizeTotal - |t.out|
            && (t.state.sizeTotal > 0 ==> Stream(t.state, left) == Stream(s, blocks)[|t.out|..]))
  {
    hide File, AllGood, Good, Next, Deliver;
    if s.sizeBlock > 0 {
      DeliverHolds(version, z, s, blocks, want);
      left := blocks;
      StreamAfter(s.pending, |Step(version, z, s, want).out|, Data(blocks));
    } else if blocks == [] {
      NextAtEnd(version, z, s);
      left := blocks;
    } else {
      NextHolds(version, z, s, blocks);
      left := blocks[1..];
      var s1 := Next(version, z, s).0;
      DeliverHolds(version, z, s1, left, want);
      assert Stream(s, blocks) == s1.pending + Data(left);
      StreamAfter(s1.pending, |Step(version, z, s, want).out|, Data(left));
    }
  }

  lemma StreamAfter(pending: Bytes, n: nat, data: Bytes)
    requires n <= |pending|
    ensures pending[..n] <= pending + data && pending[n..] + data == (pending + data)[n..]
  {
  }

  lemma NextAtEnd(version: nat, z: Codec, s: State)
    requires s.numBlocks == 0
    ensures Next(version, z, s) == (s, Err(ErrEOF))
  {
  }

  // ---- Read ---------------------------------------------------------------

  /** How many bytes a Read of l bytes, or Reads of l bytes together, get. */
  function Share(l: nat, s: State, blocks: seq<Block>): nat {
    Min(Min(l, s.sizeTotal), |Stream(s, blocks)|)
  }

  /** Read does not try to fill more than the declared total. That is so for every slice of less than 2^32 bytes. */
  predicate Within(s: State, l: nat) {
    s.sizeTotal > 0 ==> Want(l, s.sizeTotal) <= s.sizeTotal
  }

  /** The bytes read are the next ones of the stream, they are counted, and the rest is still to come. */
  predicate HasRead(version: nat, z: Codec, s: State, blocks: seq<Block>, out: Bytes, t: State, left: seq<Block>) {
    && Holds(version, z, t, left)
    && out <= Stream(s, blocks) && |out| <= s.sizeTotal && t.sizeTotal == s.sizeTotal - |out|
    && (t.sizeTotal > 0 ==> Stream(t, left) == Stream(s, blocks)[|out|..])
  }

  /** A read past the end of a sound block takes the rest of it, whatever the declared total. */
  lemma DeliverRest(version: nat, z: Codec, s: State, blocks: seq<Block>, want: nat)
    requires Holds(version, z, s, blocks) && s.pending != [] && want > |s.pending|
    ensures var t := Deliver(z, s, want);
      t.err == OK && t.out == s.pending && t.state.pending == [] && Holds(version, z, t.state, blocks)
  {
    hide File, AllGood;
  }

  /** Turns that ask for more than there is get all data there is, with the padding behind it, and then EOF. */
  lemma {:induction false} TurnsTakeAll(version: nat, z: Codec, s: State, blocks: seq<Block>, want: nat)
    requires Holds(version, z, s, blocks) && want > |Stream(s, blocks)|
    ensures var t := Turns(version, z, s, want); t.out == Stream(s, blocks) && t.err == Err(ErrEOF)
    decreases want, |blocks|
  {
    hide File, AllGood, Good, Next, Deliver;
    StepProgress(version, z, s, want);
    if s.sizeBlock > 0 {
      DeliverRest(version, z, s, blocks, want);
      TurnsTakeAll(version, z, Deliver(z, s, want).state, blocks, want - |s.pending|);
    } else if blocks == [] {
      NextAtEnd(version, z, s);
    } else {
      NextHolds(version, z, s, blocks);
      var s1 := Next(version, z, s).0;
      DeliverRest(version, z, s1, blocks[1..], want);
      TurnsTakeAll(version, z, Deliver(z, s1, want).state, blocks[1..], want - |s1.pending|);
    }
  }

  /**
   * A slice whose length as a uint32 does not exceed the declared total is not cut. If it is longer than what is to come,
   * Read fills in the padding too: it keeps to the total only if there is no padding.
   */
  lemma LongSliceIgnoresTotal(version: nat, z: Codec, s: State, blocks: seq<Block>, l: nat)
    requires Holds(version, z, s, blocks) && s.sizeTotal > 0 && !Within(s, l) && l > |Stream(s, blocks)|
    ensures ReadInto(version, z, s, l).out == Stream(s, blocks)
    ensures |ReadInto(version, z, s, l).out| == Share(l, s, blocks) <==> |Stream(s, blocks)| <= s.sizeTotal
  {
    hide Stream, Holds;
    TurnsTakeAll(version, z, s, blocks, l);
  }

  lemma HasReadMore(version: nat, z: Codec, s: State, blocks: seq<Block>, out: Bytes, t: State, mid: seq<Block>,
                    more: Bytes, u: State, left: seq<Block>)
    requires HasRead(version, z, s, blocks, out, t, mid) && HasRead(version, z, t, mid, more, u, left)
    ensures HasRead(version, z, s, blocks, out + more, u, left)
  {
    hide Holds, Stream;
    if t.sizeTotal > 0 {
      var stream := Stream(s, blocks);
      assert stream == stream[..|out|] + stream[|out|..];
      assert stream[|out|..][|more|..] == stream[|out| + |more|..];
    } else {
      assert out + more == out;
    }
  }

  class Decompressor {
    const version: nat
    const z: Codec
    var sizeTotal: UInt32
    var sizeBlock: UInt32
    var numBlocks: UInt32
    var r: Bytes
    var open: bool
    var input: Bytes
    var crcData: UInt16
    var missing: nat
    var pending: Bytes
    var last: Error
    var lim: nat

    ghost function View(): State
      reads this
    {
      State(sizeTotal, sizeBlock, numBlocks, r, open, input, crcData, missing, pending, last, lim)
    }

    constructor (version: nat, z: Codec, file: Bytes, sizeTotal: UInt32, numBlocks: UInt32)
      ensures this.version == version && this.z == z
      ensures View() == Fresh(file, sizeTotal, numBlocks)
    {
      this.version, this.z, r, this.sizeTotal, this.numBlocks := version, z, file, sizeTotal, numBlocks;
      sizeBlock, open, input, crcData, missing, pending, last, lim := 0, false, [], 0, 0, [], ErrEOF, 0;
    }

    method CloseBlock() returns (err: Result)
      ensures err == Close(z, View())
    {
      if sizeBlock > 0 || lim > 0 {
        return Err(ErrUnexpectedEOF);
      }
      if crcData != z.sum(input) {
        return Err(ErrInvalidChecksum);
      }
      return OK;
    }

    method NextBlock() returns (err: Result)
      modifies this
      ensures (View(), err) == Next(version, z, old(View()))
    {
      hide PackedLen, DataLen, Get16, Opened;
      if numBlocks == 0 {
        return Err(ErrEOF);
      }
      err := CloseBlock();
      if err != OK {
        return;
      }
      numBlocks := numBlocks - 1;
      var n := SizesLen(version);
      if |r| < n + 4 {
        err := if r == [] then Err(ErrEOF) else Err(ErrUnexpectedEOF);
        r := [];
        return;
      }
      var head := r[..n + 4];
      r := r[n + 4..];
      HeadOnly(version, head, r);
      assert head + r == old(r);
      var packed := PackedLen(version, head);
      sizeBlock := DataLen(version, head);
      var crcHead := Get16(head[n..]);
      crcData := Get16(head[n + 2..]);
      head := head[..n] + ZERO4;
      if crcHead != z.sum(head) {
        return Err(ErrInvalidChecksum);
      }
      err := OpenBlock(packed);
    }

    /** The last part of nextBlock. */
    method OpenBlock(packed: nat) returns (err: Result)
      modifies this
      ensures (View(), err) == Opened(z, old(View()), packed)
    {
      var got := Min(packed, |r|);
      input, missing := r[..got], packed - got;
      r := r[got..];
      lim := z.unread(input, |z.inflate(input)|) + missing;
      match z.opens(input)
      case Opens =>
        open, pending, last := true, z.inflate(input), z.ends(input);
        return OK;
      case Refuses(e) =>
        pending, last := [], e;
        return Err(e);
    }

    /** The body of the loop of Read, with `want` bytes of the slice still to fill. */
    method ReadTurn(want: nat) returns (out: Bytes, err: Result)
      requires want > 0
      modifies this
      ensures Turn(View(), out, err) == Step(version, z, old(View()), want)
    {
      hide Next, Deliver;
      NextOpens(version, z, View());
      if sizeBlock == 0 {
        err := NextBlock();
        if err != OK {
          return [], err;
        }
      }
      if !open {
        return [], Panic;
      }
      out, err := ReadOpen(want);
    }

    /** What is left of the turn once a block is open. */
    method ReadOpen(want: nat) returns (out: Bytes, err: Result)
      modifies this
      ensures Turn(View(), out, err) == Deliver(z, old(View()), want)
    {
      var nn := Min(want, |pending|);
      out := pending[..nn];
      pending := pending[nn..];
      sizeTotal, sizeBlock := Sub32(sizeTotal, nn), Sub32(sizeBlock, nn);
      if nn == want {
        if sizeTotal == 0 && sizeBlock > 0 {
          sizeBlock := Sub32(sizeBlock, |pending|);
          pending, lim := [], z.spare(input) + missing;
        } else {
          lim := z.unread(input, |pending|) + missing;
        }
        if sizeBlock > 0 {
          return out, OK;
        }
      } else {
        lim := z.spare(input) + missing;
        if last != ErrUnexpectedEOF && !(last == ErrEOF && nn > 0) {
          return out, Err(last);
        }
      }
      err := CloseBlock();
    }

    /**
     * Read, into a slice of l bytes: on any file the turns of the value model. On a sound one it gets the next bytes of
     * the stream, as many as asked for unless the declared total or the file ends before that.
     */
    method Read(l: nat, ghost blocks: seq<Block>) returns (out: Bytes, err: Result, ghost left: seq<Block>)
      modifies this
      ensures Turn(View(), out, err) == ReadInto(version, z, old(View()), l)
      ensures Within(old(View()), l) && Holds(version, z, old(View()), blocks) ==>
              && HasRead(version, z, old(View()), blocks, out, View(), left)
              && |out| == Share(l, old(View()), blocks)
              && (old(sizeTotal) > 0 ==> err == if |out| == Min(l, old(sizeTotal)) then OK else Err(ErrEOF))
    {
      hide Holds, HasRead, Step, Stream;
      ghost var s0 := View();
      ghost var sound := Within(s0, l) && Holds(version, z, s0, blocks);
      out, left := [], blocks;
      if sound {
        ReadNothing(version, z, s0, blocks);
      }
      if sizeTotal == 0 {
        return [], Err(ErrEOF), left;
      }
      var want := if l % 0x1_0000_0000 > sizeTotal then sizeTotal else l;
      ghost var whole := Turns(version, z, s0, want);
      assert whole == Behind([], whole);
      while |out| != want
        invariant |out| <= want
        invariant whole == Behind(out, Turns(version, z, View(), want - |out|))
        invariant sound ==> HasRead(version, z, s0, blocks, out, View(), left)
        decreases want - |out|, numBlocks
      {
        StepProgress(version, z, View(), want - |out|);
        BehindAgain(out, version, z, View(), want - |out|);
        if sound {
          left := ReadsOn(version, z, s0, blocks, out, View(), left, want - |out|);
        }
        var more;
        more, err := ReadTurn(want - |out|);
        out := out + more;
        if err != OK {
          return;
        }
      }
      if sound {
        HasReadWithin(version, z, s0, blocks, out, View(), left);
      }
      assert out + [] == out;
      return out, OK, left;
    }

    /** Reads of any lengths, one after the other, get what one Read of all the bytes would get. */
    method ReadEach(lens: seq<UInt32>, ghost blocks: seq<Block>) returns (out: Bytes)
      modifies this
      ensures Holds(version, z, old(View()), blocks) ==>
              out == Stream(old(View()), blocks)[..Share(Sum(lens), old(View()), blocks)]
    {
      hide Holds, HasRead, Stream, ReadInto, Turns, Within;
      ghost var s0 := View();
      ghost var sound := Holds(version, z, s0, blocks);
      ghost var left := blocks;
      out := [];
      if sound {
        ReadNothing(version, z, s0, blocks);
      }
      for i := 0 to |lens|
        invariant sound ==> HasRead(version, z, s0, blocks, out, View(), left)
        invariant sound ==> |out| == Share(Sum(lens[..i]), s0, blocks)
      {
        SumNext(lens, i);
        SmallIsWithin(View(), lens[i]);
        ghost var mid, before := left, View();
        if sound {
          HasReadSound(version, z, s0, blocks, out, before, mid);
        }
        var more, _, l := Read(lens[i], mid);
        if sound {
          HasReadMore(version, z, s0, blocks, out, before, mid, more, View(), l);
          ShareNext(version, z, s0, blocks, out, before, mid, Sum(lens[..i]), lens[i]);
        }
        out, left := out + more, l;
      }
      assert lens[..|lens|] == lens;
      if sound {
        HasReadWithin(version, z, s0, blocks, out, View(), left);
      }
    }
  }

  lemma BehindAgain(out: Bytes, version: nat, z: Codec, s: State, want: nat)
    requires want > 0
    ensures var t := Step(version, z, s, want);
      && |t.out| <= want
      && Behind(out, Turns(version, z, s, want)) ==
         if t.err != OK then Behind(out, t) else Behind(out + t.out, Turns(version, z, t.state, want - |t.out|))
  {
    hide Step;
    StepProgress(version, z, s, want);
    var t := Step(version, z, s, want);
    if t.err == OK {
      var u := Turns(version, z, t.state, want - |t.out|);
      assert out + (t.out + u.out) == (out + t.out) + u.out;
    }
  }

  /** A header reads the same with the rest of the file behind it. */
  lemma HeadOnly(version: nat, head: Bytes, rest: Bytes)
    requires |head| == SizesLen(version) + 4
    ensures var n, r := SizesLen(version), head + rest;
      && PackedLen(version, head) == PackedLen(version, r) && DataLen(version, head) == DataLen(version, r)
      && Get16(head[n..]) == Get16(r[n..]) && Get16(head[n + 2..]) == Get16(r[n + 2..]) && head[..n] == r[..n]
  {
  }

  function Sum(lens: seq<UInt32>): nat {
    if lens == [] then 0 else lens[0] + Sum(lens[1..])
  }

  lemma {:induction false} SumAppend(a: seq<UInt32>, b: seq<UInt32>)
    ensures Sum(a + b) == Sum(a) + Sum(b)
    decreases |a|
  {
    if a == [] {
      assert a + b == b;
    } else {
      assert (a + b)[1..] == a[1..] + b;
      SumAppend(a[1..], b);
    }
  }

  lemma SumNext(lens: seq<UInt32>, i: nat)
    requires i < |lens|
    ensures Sum(lens[..i + 1]) == Sum(lens[..i]) + lens[i]
  {
    assert lens[..i + 1] == lens[..i] + [lens[i]];
    SumAppend(lens[..i], [lens[i]]);
  }

  lemma SmallIsWithin(s: State, l: UInt32)
    ensures Within(s, l)
  {
  }

  lemma ReadNothing(version: nat, z: Codec, s: State, blocks: seq<Block>)
    requires Holds(version, z, s, blocks)
    ensures HasRead(version, z, s, blocks, [], s, blocks)
  {
  }

  lemma HasReadSound(version: nat, z: Codec, s: State, blocks: seq<Block>, out: Bytes, t: State, left: seq<Block>)
    requires HasRead(version, z, s, blocks, out, t, left)
    ensures Holds(version, z, t, left)
  {
  }

  lemma HasReadWithin(version: nat, z: Codec, s: State, blocks: seq<Block>, out: Bytes, t: State, left: seq<Block>)
    requires HasRead(version, z, s, blocks, out, t, left)
    ensures |out| <= |Stream(s, blocks)| && out == Stream(s, blocks)[..|out|]
  {
  }

  /** One more turn: it reads on, or the whole stream has been read and it answers EOF. */
  lemma ReadsOn(version: nat, z: Codec, s: State, blocks: seq<Block>, out: Bytes, t: State, mid: seq<Block>, want: nat)
    returns (left: seq<Block>)
    requires HasRead(version, z, s, blocks, out, t, mid) && 0 < want <= s.sizeTotal - |out|
    ensures var turn := Step(version, z, t, want);
      && HasRead(version, z, s, blocks, out + turn.out, turn.state, left)
      && (turn.err != OK ==> turn.err == Err(ErrEOF) && turn.out == [] && out == Stream(s, blocks))
  {
    hide Holds, Step, Stream;
    left := StepHolds(version, z, t, mid, want);
    var turn := Step(version, z, t, want);
    assert HasRead(version, z, t, mid, turn.out, turn.state, left);
    HasReadMore(version, z, s, blocks, out, t, mid, turn.out, turn.state, left);
  }

  lemma ShareNext(version: nat, z: Codec, s: State, blocks: seq<Block>, out: Bytes, t: State, mid: seq<Block>,
                  sum: nat, l: nat)
    requires HasRead(version, z, s, blocks, out, t, mid) && |out| == Share(sum, s, blocks)
    ensures |out| + Share(l, t, mid) == Share(sum + l, s, blocks)
  {
  }
}
