// A replay from its records to the file and back (file/w3g): WriteRecords, the compressor, the decompressor, ForEach.

module ReplayFile {
  import opened Blocks
  import Decompress
  import opened Peekers
  import opened Records
  import RecordReader
  import RecordWriter
  import opened Replays
  import opened Wire

  /** The buffer that ForEach reads records from. */
  const READ_BUF: nat := 8192

  function AllBytes(recs: seq<Record>, version: nat): seq<Bytes>
    requires forall i | 0 <= i < |recs| :: !recs[i].Other?
  {
    if recs == [] then [] else [Encode(recs[0], version)] + AllBytes(recs[1..], version)
  }

  function NoPads(n: nat): (pads: seq<nat>)
    ensures |pads| == n
  {
    if n == 0 then [] else [0] + NoPads(n - 1)
  }

  /** Records written one after the other are a stream without padding. */
  lemma {:induction false} UnpaddedIs(recs: seq<Record>, version: nat)
    requires forall i | 0 <= i < |recs| :: !recs[i].Other?
    ensures Concat(AllBytes(recs, version)) == RecordReader.Padded(recs, NoPads(|recs| + 1), version)
    decreases |recs|
  {
    hide Encode;
    var pads := NoPads(|recs| + 1);
    assert pads[0] == 0 && Zeros(0) == [];
    if recs != [] {
      var first, more := Encode(recs[0], version), AllBytes(recs[1..], version);
      UnpaddedIs(recs[1..], version);
      assert pads[1..] == NoPads(|recs|);
      assert AllBytes(recs, version)[1..] == more;
      assert Concat(AllBytes(recs, version)) == first + Concat(more);
      assert [] + (first + Concat(more)) == first + Concat(more);
    }
  }

  /** The bytes of each record, as Compressor.WriteRecords hands them to the buffered writer. */
  method SerializeAll(recs: seq<Record>, version: nat) returns (writes: seq<Bytes>)
    requires forall i | 0 <= i < |recs| :: !recs[i].Other?
    ensures writes == AllBytes(recs, version)
  {
    hide Encode;
    writes := [];
    assert recs[0..] == recs;
    for i := 0 to |recs|
      invariant writes + AllBytes(recs[i..], version) == AllBytes(recs, version)
    {
      var buf := new Buffer([]);
      RecordWriter.Serialize(recs[i], version, buf);
      assert buf.bytes == Encode(recs[i], version);
      assert recs[i..][1..] == recs[i + 1..];
      assert AllBytes(recs[i..], version) == [Encode(recs[i], version)] + AllBytes(recs[i + 1..], version);
      writes := writes + [buf.bytes];
    }
    assert AllBytes(recs[|recs|..], version) == [];
  }

  /**
   * Records that fit the reader's buffer, saved through a write buffer of any size and loaded with reads of any
   * lengths that get all of it, come back in order, up to the fields that the format does not store, if the blocks that
   * they become are good.
   */
  method SaveAndLoad(d: Decoding, z: Codec, size: nat, recs: seq<Record>, lens: seq<UInt32>)
    returns (got: seq<Record>, err: Result)
    requires z.sum([]) == 0 && size > 0
    requires RecordReader.Readable(recs, 8192, d.version)
    requires |Concat(AllBytes(recs, d.version))| + size < 0x1_0000_0000
    requires Decompress.Sum(lens) >= |Concat(AllBytes(recs, d.version))|
    ensures AllGood(d.version, z, BlocksOf(d.version, z, size, AllBytes(recs, d.version))) ==>
            err == OK && got == RecordReader.AllStored(recs, d.version)
  {
    hide Encode, AllBytes, Concat, AllGood, BlocksOf, RecordReader.ReadAll, RecordReader.Padded;
    ghost var stream := Concat(AllBytes(recs, d.version));
    var writes := SerializeAll(recs, d.version);
    var data := WriteThenRead(d.version, z, size, writes, lens);
    assert AllGood(d.version, z, BlocksOf(d.version, z, size, writes)) ==> data == stream;
    UnpaddedIs(recs, d.version);
    RecordReader.StreamRoundTrip(recs, NoPads(|recs| + 1), READ_BUF, d);
    var dec := new RecordReader.RecordDecoder(d);
    var r := new Peeker(READ_BUF, data);
    got, err := dec.ForEach(r);
  }
}
