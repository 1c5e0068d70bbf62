// The GameInfo packet (protocol/w3gs/packets.go), whose size field rests on GameSettings.Size.

module GameInfos {
  import opened Wire
  import opened S = StatStrings

  const PID_GAME_INFO: Byte := 0x30

  datatype GameInfo = GameInfo(
    product: UInt32,
    version: UInt32,
    hostCounter: UInt32,
    entryKey: UInt32,
    gameName: Bytes,
    settings: GameSettings,
    slotsTotal: UInt32,
    gameFlags: UInt32,
    slotsUsed: UInt32,
    slotsAvailable: UInt32,
    uptimeSec: UInt32,
    gamePort: UInt16)

  function BE32(v: UInt32): (b: Bytes)
    ensures |b| == 4
  {
    var b := LE32(v);
    [b[3], b[2], b[1], b[0]]
  }

  function GetBE32(b: Bytes): UInt32
    requires |b| >= 4
  {
    Get32([b[3], b[2], b[1], b[0]])
  }

  lemma GetBE32OfBE32(v: UInt32, tail: Bytes)
    ensures GetBE32(BE32(v) + tail) == v && (BE32(v) + tail)[4..] == tail
  {
    var b := BE32(v) + tail;
    assert [b[3], b[2], b[1], b[0]] == LE32(v) + [];
    Get32OfLE32(v, []);
  }

  function Words(vs: seq<UInt32>): (b: Bytes)
    ensures |b| == 4 * |vs|
  {
    if vs == [] then [] else LE32(vs[0]) + Words(vs[1..])
  }

  lemma {:induction false} WordAt(vs: seq<UInt32>, tail: Bytes, i: nat)
    requires i < |vs|
    ensures Get32((Words(vs) + tail)[4 * i..]) == vs[i]
    decreases i
  {
    var b := Words(vs) + tail;
    assert b == LE32(vs[0]) + (Words(vs[1..]) + tail);
    Get32OfLE32(vs[0], Words(vs[1..]) + tail);
    if i > 0 {
      WordAt(vs[1..], tail, i - 1);
      assert b[4..][4 * (i - 1)..] == b[4 * i..];
    } else {
      assert b[0..] == b;
    }
  }

  /** The fields before the game name. */
  function Front(gi: GameInfo): (b: Bytes)
    ensures |b| == 16
  {
    BE32(gi.product) + Words([gi.version, gi.hostCounter, gi.entryKey])
  }

  function BackWords(gi: GameInfo): seq<UInt32> {
    [gi.slotsTotal, gi.gameFlags, gi.slotsUsed, gi.slotsAvailable, gi.uptimeSec]
  }

  /** The fields after the settings. */
  function Back(gi: GameInfo): (b: Bytes)
    ensures |b| == 22
  {
    Words(BackWords(gi)) + LE16(gi.gamePort)
  }

  function EncodeInfo(gi: GameInfo): Bytes {
    [0xF7, PID_GAME_INFO] + (LE16(Lo16(44 + |gi.gameName| + Size(gi.settings))) +
    (Front(gi) + (CString(gi.gameName) + ([0] + (Encode(gi.settings) + Back(gi))))))
  }

  predicate ValidInfo(gi: GameInfo) {
    S.Valid(gi.settings) && NulFree(gi.gameName)
  }

  /** The size in the header is the length of the packet exactly when that fits 16 bits. */
  lemma HeaderIsLength(gi: GameInfo)
    requires |gi.settings.mapSha1| == 20
    ensures |EncodeInfo(gi)| == 44 + |gi.gameName| + Size(gi.settings) && Size(gi.settings) > 0
    ensures Get16(EncodeInfo(gi)[2..]) == |EncodeInfo(gi)| <==> |EncodeInfo(gi)| < 0x1_0000
  {
    SizeIsLength(gi.settings);
    var b := EncodeInfo(gi);
    Get16OfLE16(Lo16(44 + |gi.gameName| + Size(gi.settings)), b[4..]);
    assert b[2..] == LE16(Lo16(44 + |gi.gameName| + Size(gi.settings))) + b[4..];
  }

  function DecodeBack(front: Bytes, name: Bytes, gs: GameSettings, b: Bytes): GameInfo
    requires |front| >= 16 && |b| >= 22
  {
    GameInfo(GetBE32(front), Get32(front[4..]), Get32(front[8..]), Get32(front[12..]), name, gs,
             Get32(b), Get32(b[4..]), Get32(b[8..]), Get32(b[12..]), Get32(b[16..]), Get16(b[20..]))
  }

  /** GameInfo.Deserialize */
  function DecodeInfo(b: Bytes): Outcome<GameInfo> {
    if |b| < 4 || Get16(b[2..]) as int > |b| || Get16(b[2..]) < 45 then
      Failed(ErrInvalidPacketSize)
    else
      var size := Get16(b[2..]) as int;
      match TakeCString(b[20..])
      case Failed(err) => Failed(err)
      case Panics => Panics
      case Done(name, more) =>
        if size < 45 + |name| then Failed(ErrInvalidPacketSize)
        else if more == [] then Panics
        else if more[0] != 0 then Failed(ErrUnexpectedConst)
        else
          match Decode(more[1..])
          case Failed(err) => Failed(err)
          case Panics => Panics
          case Done(gs, back) =>
            if size != 44 + |name| + Size(gs) then Failed(ErrInvalidPacketSize)
            else if |back| < 22 then Panics
            else Done(DecodeBack(b[4..], name, gs, back), back[22..])
  }

  lemma FrontOf(gi: GameInfo, tail: Bytes)
    ensures var b := Front(gi) + tail;
      && GetBE32(b) == gi.product && Get32(b[4..]) == gi.version
      && Get32(b[8..]) == gi.hostCounter && Get32(b[12..]) == gi.entryKey
  {
    hide Get32, LE32, Words, GetBE32, BE32;
    var b, vs := Front(gi) + tail, [gi.version, gi.hostCounter, gi.entryKey];
    assert b == BE32(gi.product) + (Words(vs) + tail);
    GetBE32OfBE32(gi.product, Words(vs) + tail);
    WordAt(vs, tail, 0);
    WordAt(vs, tail, 1);
    WordAt(vs, tail, 2);
    assert b[4..][0..] == b[4..] && b[4..][4..] == b[8..] && b[4..][8..] == b[12..];
  }

  lemma BackOf(gi: GameInfo, tail: Bytes)
    ensures var b := Back(gi) + tail;
      && Get32(b) == gi.slotsTotal && Get32(b[4..]) == gi.gameFlags && Get32(b[8..]) == gi.slotsUsed
      && Get32(b[12..]) == gi.slotsAvailable && Get32(b[16..]) == gi.uptimeSec && Get16(b[20..]) == gi.gamePort
      && b[22..] == tail
  {
    hide Get32, LE32, Words;
    var b, vs, port := Back(gi) + tail, BackWords(gi), LE16(gi.gamePort) + tail;
    assert b == Words(vs) + port;
    WordAt(vs, port, 0);
    WordAt(vs, port, 1);
    WordAt(vs, port, 2);
    WordAt(vs, port, 3);
    WordAt(vs, port, 4);
    assert b[0..] == b;
    assert b[20..] == port;
    Get16OfLE16(gi.gamePort, tail);
    assert b[22..] == port[2..];
  }

  lemma DecodeBackOf(gi: GameInfo, names: Bytes, tail: Bytes)
    ensures DecodeBack(Front(gi) + names, gi.gameName, gi.settings, Back(gi) + tail) == gi
    ensures (Back(gi) + tail)[22..] == tail
  {
    hide Front, Back, Get32, GetBE32;
    FrontOf(gi, names);
    BackOf(gi, tail);
  }

  /** A GameInfo that fits is read back whole, whatever follows it. */
  lemma InfoRoundTrip(gi: GameInfo, tail: Bytes)
    requires ValidInfo(gi) && |EncodeInfo(gi)| < 0x1_0000
    ensures DecodeInfo(EncodeInfo(gi) + tail) == Done(gi, tail)
  {
    hide Encode, Decode, Size, DecodeBack, Front, Back;
    HeaderIsLength(gi);
    var b := EncodeInfo(gi) + tail;
    var back := Back(gi) + tail;
    var stats := Encode(gi.settings) + back;
    var names := CString(gi.gameName) + ([0] + stats);
    assert b[4..] == Front(gi) + names;
    assert b[2..] == LE16(|EncodeInfo(gi)|) + (Front(gi) + names);
    Get16OfLE16(|EncodeInfo(gi)|, Front(gi) + names);
    assert b[20..] == b[4..][16..] == names;
    TakeCStringOf(gi.gameName, [0] + stats);
    assert ([0] + stats)[1..] == stats;
    S.RoundTrip(gi.settings, back);
    DecodeBackOf(gi, names, tail);
  }

  // ---- Reads past the buffer ----------------------------------------------

  /** The statstring is one byte longer than Size() makes of it, and nothing follows the packet. */
  predicate InfoOverruns(b: Bytes) {
    && |b| >= 45 && Get16(b[2..]) == |b|
    && TakeCString(b[20..]).Done?
    && var name, more := TakeCString(b[20..]).value, TakeCString(b[20..]).rest;
       && |b| >= 45 + |name| && more != [] && more[0] == 0
       && TakeCString(more[1..]).Done? && Decode(more[1..]).Done?
       && var size := Size(Decode(more[1..]).value);
          |b| == 44 + |name| + size && |TakeCString(more[1..]).value| == size
  }

  lemma StringLeaves(b: Bytes)
    ensures TakeCString(b).Done? ==> |TakeCString(b).rest| == |b| - |TakeCString(b).value| - 1
  {
  }

  /** GameInfo.Deserialize panics exactly there. */
  lemma InfoPanicsIff(b: Bytes)
    ensures DecodeInfo(b).Panics? <==> InfoOverruns(b)
  {
    hide Decode, Size, TakeCString, DecodeBack, Get16;
    if |b| >= 20 {
      TakeCStringReturns(b[20..]);
      StringLeaves(b[20..]);
      if TakeCString(b[20..]).Done? {
        var more := TakeCString(b[20..]).rest;
        if more != [] {
          DecodedFits(more[1..]);
          StringLeaves(more[1..]);
        }
      }
    }
  }

  lemma TakeCStringReturns(b: Bytes)
    ensures !TakeCString(b).Panics?
  {
  }

  /** Any GameInfo whose settings fill their groups of seven, with a lone control byte and half a port number. */
  lemma LoneControlPanics(gi: GameInfo)
    requires ValidInfo(gi) && (36 + |gi.settings.mapPath| + |gi.settings.hostName|) % 7 == 0
    requires 44 + |gi.gameName| + Size(gi.settings) < 0x1_0000
    ensures DecodeInfo([0xF7, PID_GAME_INFO] + (LE16(44 + |gi.gameName| + Size(gi.settings)) + (Front(gi) +
      (CString(gi.gameName) + ([0] + (CString(Shift(Plain(gi.settings)) + [1]) + Back(gi)[..21])))))).Panics?
  {
    hide Decode, Size, TakeCString, CString, Front, Back, LE16, Get16, Shift, Plain, DecodeInfo;
    var size := 44 + |gi.gameName| + Size(gi.settings);
    var s := Shift(Plain(gi.settings)) + [1];
    var stats := CString(s) + Back(gi)[..21];
    var names := CString(gi.gameName) + ([0] + stats);
    var b := [0xF7, PID_GAME_INFO] + (LE16(size) + (Front(gi) + names));
    LoneControl(gi.settings, Back(gi)[..21]);
    TakeCStringOf(gi.gameName, [0] + stats);
    CStringLength(gi.gameName);
    CStringLength(s);
    assert b[2..] == LE16(size) + (Front(gi) + names);
    Get16OfLE16(size, Front(gi) + names);
    assert b[20..] == names;
    assert ([0] + stats)[1..] == stats;
    assert |b| == size;
    InfoPanicsIff(b);
  }

  lemma CStringLength(s: Bytes)
    ensures |CString(s)| == |s| + 1
  {
  }

  // ---- Decoding over old contents -----------------------------------------

  /** The fields before the name. */
  method ReadFront(buf: Buffer, was: GameInfo) returns (gi: GameInfo)
    requires |buf.bytes| >= 16
    modifies buf
    ensures buf.bytes == old(buf.bytes)[16..]
    ensures var b := old(buf.bytes);
      gi == was.(product := GetBE32(b), version := Get32(b[4..]), hostCounter := Get32(b[8..]), entryKey := Get32(b[12..]))
  {
    hide Get32;
    ghost var b := buf.bytes;
    var tag := buf.ReadBlob(4);
    var version := buf.ReadUInt32();
    assert buf.bytes == b[8..];
    var counter := buf.ReadUInt32();
    assert buf.bytes == b[12..];
    var key := buf.ReadUInt32();
    assert buf.bytes == b[16..];
    gi := was.(product := GetBE32(tag), version := version, hostCounter := counter, entryKey := key);
  }

  /** The fields after the settings. */
  method ReadBack(buf: Buffer, was: GameInfo) returns (gi: GameInfo)
    requires |buf.bytes| >= 22
    modifies buf
    ensures buf.bytes == old(buf.bytes)[22..]
    ensures var b := old(buf.bytes);
      gi == was.(slotsTotal := Get32(b), gameFlags := Get32(b[4..]), slotsUsed := Get32(b[8..]),
                 slotsAvailable := Get32(b[12..]), uptimeSec := Get32(b[16..]), gamePort := Get16(b[20..]))
  {
    hide Get32, Get16;
    ghost var b := buf.bytes;
    var total := buf.ReadUInt32();
    assert buf.bytes == b[4..];
    var flags := buf.ReadUInt32();
    assert buf.bytes == b[8..];
    var used := buf.ReadUInt32();
    assert buf.bytes == b[12..];
    var available := buf.ReadUInt32();
    assert buf.bytes == b[16..];
    var uptime := buf.ReadUInt32();
    assert buf.bytes == b[20..];
    var port := buf.ReadUInt16();
    assert buf.bytes == b[22..];
    gi := was.(slotsTotal := total, gameFlags := flags, slotsUsed := used, slotsAvailable := available,
               uptimeSec := uptime, gamePort := port);
  }

  /** GameInfo.Deserialize, into a struct that held something else before: what comes out depends on the bytes alone. */
  method DeserializeInfo(buf: Buffer, was: GameInfo) returns (gi: GameInfo, err: Result)
    modifies buf
    ensures DecodeInfo(old(buf.bytes)) == Answer(err, gi, buf.bytes)
  {
    hide Get32, GetBE32, Decode, Size, TakeCString;
    ghost var b := buf.bytes;
    gi := was;
    if |buf.bytes| < 4 {
      return gi, Err(ErrInvalidPacketSize);
    }
    var bsize := |buf.bytes|;
    buf.Skip(2);
    var size: int := buf.ReadUInt16();
    assert buf.bytes == b[4..];
    if size > bsize || size < 45 {
      return gi, Err(ErrInvalidPacketSize);
    }
    gi := ReadFront(buf, gi);
    assert buf.bytes == b[20..];
    var name, ok := buf.ReadCString();
    if !ok {
      return gi, Err(ErrNoCStringTerminatorFound);
    }
    gi := gi.(gameName := name);
    if size < 45 + |name| {
      return gi, Err(ErrInvalidPacketSize);
    }
    if buf.bytes == [] {
      return gi, Panic;
    }
    var zero := buf.ReadUInt8();
    if zero != 0 {
      return gi, Err(ErrUnexpectedConst);
    }
    var gs;
    gs, err := S.DeserializeContent(buf, gi.settings);
    if !err.OK? {
      return;
    }
    gi := gi.(settings := gs);
    if size != 44 + |name| + Size(gs) {
      return gi, Err(ErrInvalidPacketSize);
    }
    if |buf.bytes| < 22 {
      return gi, Panic;
    }
    gi := ReadBack(buf, gi);
  }
}
