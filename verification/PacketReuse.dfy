// Packets that a caching factory hands out again (protocol/w3gs/factory.go): each is decoded over its old contents
// (protocol/w3gs/packets.go), and what comes out depends on the bytes alone.

module PacketReuse {
  import opened Wire

  // ---- Wire forms ---------------------------------------------------------

  /** readPacketSize: the size field, or -1 for a packet that is cut short. */
  function PacketSize(b: Bytes): int {
    if |b| < 4 || Get16(b[2..]) > |b| then -1 else Get16(b[2..])
  }

  function PacketBytes(id: Byte, content: Bytes): Bytes {
    [0xF7, id] + LE16(Lo16(4 + |content|)) + content
  }

  lemma PacketOf(id: Byte, content: Bytes, tail: Bytes)
    requires 4 + |content| < 0x1_0000
    ensures var b := PacketBytes(id, content) + tail;
      |b| == 4 + |content| + |tail| && PacketSize(b) == 4 + |content| && b[4..] == content + tail
  {
    hide LE16, Get16;
    var b := PacketBytes(id, content) + tail;
    assert b[2..] == LE16(4 + |content|) + (content + tail);
    Get16OfLE16(4 + |content|, content + tail);
    assert b[4..] == content + tail;
  }

  datatype Slot = Slot(
    playerID: Byte,
    download: Byte,
    status: Byte,
    computer: bool,
    team: Byte,
    color: Byte,
    race: Byte,
    computerType: Byte,
    handicap: Byte)

  datatype SlotInfo = SlotInfo(slots: seq<Slot>, randomSeed: UInt32, slotLayout: Byte, numPlayers: Byte)

  const NO_SLOT := Slot(0, 0, 0, false, 0, 0, 0, 0, 0)
  const COMPUTER_NORMAL: Byte := 1

  function SlotBytes(s: Slot): (b: Bytes)
    ensures |b| == 9
  {
    [s.playerID, s.download, s.status, if s.computer then 1 else 0, s.team, s.color, s.race, s.computerType, s.handicap]
  }

  function SlotsBytes(slots: seq<Slot>): (b: Bytes)
    ensures |b| == 9 * |slots|
  {
    if slots == [] then [] else SlotBytes(slots[0]) + SlotsBytes(slots[1..])
  }

  function SlotInfoBytes(si: SlotInfo): Bytes {
    LE16(Lo16(7 + |si.slots| * 9)) + ([|si.slots| % 0x100] +
    (SlotsBytes(si.slots) + (LE32(si.randomSeed) + [si.slotLayout, si.numPlayers])))
  }

  datatype LagPlayer = LagPlayer(playerID: Byte, lagMS: UInt32)

  // ---- What Deserialize makes of any bytes --------------------------------

  /** Go's integer division. */
  function Quot(a: int, n: nat): int
    requires n > 0
  {
    if a >= 0 then a / n else -((-a) / n)
  }

  /** Old replays have slots of seven or eight bytes. */
  function SlotWidth(slotSize: int): nat {
    if slotSize > 8 then 9 else if slotSize > 7 then 8 else 7
  }

  function DecodeSlot(b: Bytes, slotSize: int): Slot
    requires |b| >= SlotWidth(slotSize)
  {
    Slot(b[0], b[1], b[2], b[3] > 0, b[4], b[5], b[6],
         if slotSize > 7 then b[7] else COMPUTER_NORMAL, if slotSize > 8 then b[8] else 100)
  }

  function DecodeSlots(b: Bytes, n: nat, slotSize: int): Outcome<seq<Slot>>
    decreases n
  {
    if n == 0 then Done([], b)
    else if |b| < SlotWidth(slotSize) then Panics
    else
      match DecodeSlots(b[SlotWidth(slotSize)..], n - 1, slotSize)
      case Done(slots, rest) => Done([DecodeSlot(b, slotSize)] + slots, rest)
      case Failed(err) => Failed(err)
      case Panics => Panics
  }

  function DecodeContent(b: Bytes): Outcome<SlotInfo> {
    if |b| < 2 then Panics
    else
      var dataSize := Get16(b) as int;
      if dataSize == 0 then Done(SlotInfo([], 0, 0, 0), b[2..])
      else if |b| - 2 < dataSize then Failed(ErrInvalidPacketSize)
      else
        var n := b[2] as int;
        var slotSize := if n > 0 then Quot(dataSize - 7, n) else 9;
        if dataSize != 7 + n * slotSize then Failed(ErrInvalidPacketSize)
        else
          match DecodeSlots(b[3..], n, slotSize)
          case Failed(err) => Failed(err)
          case Panics => Panics
          case Done(slots, rest) =>
            if |rest| < 6 then Panics else Done(SlotInfo(slots, Get32(rest), rest[4], rest[5]), rest[6..])
  }

  function DecodeSlotInfo(b: Bytes): Outcome<SlotInfo> {
    if PacketSize(b) < 13 then Failed(ErrInvalidPacketSize)
    else
      match DecodeContent(b[4..])
      case Done(si, rest) =>
        if PacketSize(b) != 13 + |si.slots| * 9 then Failed(ErrInvalidPacketSize) else Done(si, rest)
      case Failed(err) => Failed(err)
      case Panics => Panics
  }

  // ---- Round trip ---------------------------------------------------------

  lemma {:induction false} DecodeSlotsOf(slots: seq<Slot>, tail: Bytes)
    ensures DecodeSlots(SlotsBytes(slots) + tail, |slots|, 9) == Done(slots, tail)
    decreases |slots|
  {
    var b := SlotsBytes(slots) + tail;
    if slots == [] {
      assert b == tail;
    } else {
      assert b == SlotBytes(slots[0]) + (SlotsBytes(slots[1..]) + tail);
      assert b[9..] == SlotsBytes(slots[1..]) + tail;
      DecodeSlotsOf(slots[1..], tail);
      assert slots == [slots[0]] + slots[1..];
    }
  }

  lemma NineEach(n: nat)
    ensures n > 0 ==> Quot(n * 9, n) == 9
  {
  }

  lemma ContentOf(si: SlotInfo, tail: Bytes)
    requires |si.slots| < 0x100
    ensures DecodeContent(SlotInfoBytes(si) + tail) == Done(si, tail)
  {
    hide LE16, LE32, Get16, Get32, SlotsBytes, DecodeSlots, Quot;
    var n := |si.slots|;
    NineEach(n);
    var back := LE32(si.randomSeed) + [si.slotLayout, si.numPlayers];
    var b := SlotInfoBytes(si) + tail;
    assert b == LE16(7 + n * 9) + ([n] + (SlotsBytes(si.slots) + (back + tail)));
    Get16OfLE16(7 + n * 9, [n] + (SlotsBytes(si.slots) + (back + tail)));
    assert b[2..] == [n] + (SlotsBytes(si.slots) + (back + tail));
    assert b[3..] == SlotsBytes(si.slots) + (back + tail);
    DecodeSlotsOf(si.slots, back + tail);
    assert back + tail == LE32(si.randomSeed) + ([si.slotLayout, si.numPlayers] + tail);
    Get32OfLE32(si.randomSeed, [si.slotLayout, si.numPlayers] + tail);
    assert (back + tail)[6..] == tail;
  }

  /** A SlotInfo of up to 255 slots is read back whole, whatever follows it. */
  lemma SlotInfoRoundTrip(si: SlotInfo, tail: Bytes)
    requires |si.slots| < 0x100
    ensures DecodeSlotInfo(PacketBytes(0x09, SlotInfoBytes(si)) + tail) == Done(si, tail)
  {
    hide DecodeContent, LE32;
    assert |SlotInfoBytes(si)| == 9 + |si.slots| * 9;
    PacketOf(0x09, SlotInfoBytes(si), tail);
    ContentOf(si, tail);
  }

  // ---- Reads past the buffer ----------------------------------------------

  lemma {:induction false} SlotsPanicIff(b: Bytes, n: nat, slotSize: int)
    ensures var o := DecodeSlots(b, n, slotSize);
      && !o.Failed? && (o.Panics? <==> |b| < n * SlotWidth(slotSize))
      && (o.Done? ==> |o.rest| == |b| - n * SlotWidth(slotSize))
    decreases n
  {
    hide DecodeSlot, SlotWidth;
    var w := SlotWidth(slotSize);
    if n > 0 {
      assert n * w == w + (n - 1) * w;
      if |b| >= w {
        SlotsPanicIff(b[w..], n - 1, slotSize);
      }
    }
  }

  /** The guard on dataSize lets slots through that are narrower than the seven bytes read for each. */
  predicate NarrowSlots(b: Bytes) {
    && |b| >= 3 && 0 < Get16(b) as int <= |b| - 2
    && var dataSize, n := Get16(b) as int, b[2] as int;
       && n > 0 && dataSize == 7 + n * Quot(dataSize - 7, n) && Quot(dataSize - 7, n) < 7
       && |b| < 9 + 7 * n
  }

  /** DeserializeContent panics exactly on slots that are too narrow, in too short a buffer. */
  lemma ContentPanicsIff(b: Bytes)
    ensures DecodeContent(b).Panics? <==> |b| < 2 || NarrowSlots(b)
  {
    hide DecodeSlots, Quot, Get16, Get32;
    if |b| >= 3 && 0 < Get16(b) as int <= |b| - 2 {
      var dataSize, n := Get16(b) as int, b[2] as int;
      var slotSize := if n > 0 then Quot(dataSize - 7, n) else 9;
      if dataSize == 7 + n * slotSize {
        SlotsPanicIff(b[3..], n, slotSize);
        WidthWithin(n, slotSize);
      }
    }
  }

  lemma WidthWithin(n: nat, slotSize: int)
    ensures slotSize >= 7 ==> n * SlotWidth(slotSize) <= n * slotSize
    ensures slotSize < 7 ==> n * SlotWidth(slotSize) == 7 * n
  {
  }

  lemma SlotInfoPanicsIff(b: Bytes)
    ensures DecodeSlotInfo(b).Panics? <==> PacketSize(b) >= 13 && NarrowSlots(b[4..])
  {
    hide DecodeContent, NarrowSlots;
    if PacketSize(b) >= 13 {
      ContentPanicsIff(b[4..]);
    }
  }

  /** One slot of no bytes. */
  lemma NoWidthPanics()
    ensures DecodeSlotInfo([0xF7, 0x09, 13, 0, 7, 0, 1, 0, 0, 0, 0, 0, 0]).Panics?
  {
    var b := [0xF7, 0x09, 13, 0, 7, 0, 1, 0, 0, 0, 0, 0, 0];
    assert b[2..][0] == 13 && b[2..][1] == 0;
    var c := b[4..];
    assert c == [7, 0, 1, 0, 0, 0, 0, 0, 0];
    assert Get16(c) == 7 && Quot(0, 1) == 0;
    SlotInfoPanicsIff(b);
  }

  // ---- Decoding over old contents -----------------------------------------

  /** readPacketSize, on the buffer. */
  method ReadPacketSize(buf: Buffer) returns (size: int)
    modifies buf
    ensures size == PacketSize(old(buf.bytes))
    ensures size >= 0 ==> |old(buf.bytes)| >= 4 && buf.bytes == old(buf.bytes)[4..]
  {
    var bsize := |buf.bytes|;
    if bsize < 4 {
      return -1;
    }
    buf.Skip(1);
    var pid := buf.ReadUInt8();
    assert buf.bytes == old(buf.bytes)[2..];
    size := buf.ReadUInt16();
    if size > bsize {
      return -1;
    }
  }

  /** A SlotInfo struct; of the storage of its slice only the first `len` slots are in use. */
  class SlotInfoPacket {
    var backing: seq<Slot>
    var len: nat
    var randomSeed: UInt32
    var slotLayout: Byte
    var numPlayers: Byte

    ghost predicate Valid()
      reads this
    {
      len <= |backing|
    }

    ghost function View(): SlotInfo
      reads this
      requires Valid()
    {
      SlotInfo(backing[..len], randomSeed, slotLayout, numPlayers)
    }

    /** The slice is cut or, when its storage is too small, replaced; old slots stay in it until overwritten. */
    method Resize(n: nat)
      requires Valid()
      modifies this`backing, this`len
      ensures Valid() && len == n
    {
      if |backing| < n {
        backing := seq(n, _ => NO_SLOT);
      }
      len := n;
    }

    /** The fields of slot i that every version has, one by one. */
    method ReadFields(buf: Buffer, i: nat)
      requires Valid() && i < len && |buf.bytes| >= 7
      modifies this`backing, buf
      ensures Valid() && buf.bytes == old(buf.bytes)[7..]
      ensures var b := old(buf.bytes);
        backing == old(backing)[i := old(backing)[i].(playerID := b[0], download := b[1], status := b[2],
                                                      computer := b[3] > 0, team := b[4], color := b[5], race := b[6])]
    {
      ghost var b := buf.bytes;
      var s := backing[i];
      var v := buf.ReadUInt8();
      assert buf.bytes == b[1..];
      s := s.(playerID := v);
      v := buf.ReadUInt8();
      assert buf.bytes == b[2..];
      s := s.(download := v);
      v := buf.ReadUInt8();
      assert buf.bytes == b[3..];
      s := s.(status := v);
      v := buf.ReadUInt8();
      assert buf.bytes == b[4..];
      s := s.(computer := v > 0);
      v := buf.ReadUInt8();
      assert buf.bytes == b[5..];
      s := s.(team := v);
      v := buf.ReadUInt8();
      assert buf.bytes == b[6..];
      s := s.(color := v);
      v := buf.ReadUInt8();
      assert buf.bytes == b[7..];
      backing := backing[i := s.(race := v)];
    }

    /** All fields of slot i; those that the version does not have get their defaults. */
    method ReadSlot(buf: Buffer, i: nat, slotSize: int)
      requires Valid() && i < len && |buf.bytes| >= SlotWidth(slotSize)
      modifies this`backing, buf
      ensures Valid() && backing == old(backing)[i := DecodeSlot(old(buf.bytes), slotSize)]
      ensures buf.bytes == old(buf.bytes)[SlotWidth(slotSize)..]
    {
      ghost var b := buf.bytes;
      ReadFields(buf, i);
      var computerType, handicap: Byte := COMPUTER_NORMAL, 100;
      if slotSize > 7 {
        computerType := buf.ReadUInt8();
        assert buf.bytes == b[8..];
      }
      if slotSize > 8 {
        handicap := buf.ReadUInt8();
        assert buf.bytes == b[9..];
      }
      backing := backing[i := backing[i].(computerType := computerType, handicap := handicap)];
    }

    method ReadSlots(buf: Buffer, slotSize: int) returns (err: Result)
      requires Valid()
      modifies this`backing, buf
      ensures Valid() && !err.Err?
      ensures DecodeSlots(old(buf.bytes), len, slotSize) == Answer(err, backing[..len], buf.bytes)
    {
      hide DecodeSlot, SlotWidth, DecodeSlots;
      ghost var whole := DecodeSlots(buf.bytes, len, slotSize);
      BehindNothing(whole);
      for i := 0 to len
        invariant Valid()
        invariant whole == Behind(backing[..i], DecodeSlots(buf.bytes, len - i, slotSize))
      {
        SlotsStep(backing[..i], buf.bytes, len - i, slotSize);
        if |buf.bytes| < SlotWidth(slotSize) {
          return Panic;
        }
        ghost var before := backing[..i];
        ReadSlot(buf, i, slotSize);
        assert backing[..i + 1] == before + [backing[i]];
      }
      SlotsEnd(backing[..len], buf.bytes, slotSize);
      return OK;
    }

    /** SlotInfo.DeserializeContent: whatever the struct held, it now holds what the bytes say. */
    method DeserializeContent(buf: Buffer) returns (err: Result)
      requires Valid()
      modifies this, buf
      ensures Valid()
      ensures DecodeContent(old(buf.bytes)) == Answer(err, View(), buf.bytes)
    {
      hide Get16, Get32, DecodeSlots;
      ghost var b := buf.bytes;
      if |buf.bytes| < 2 {
        return Panic;
      }
      var dataSize: int := buf.ReadUInt16();
      if dataSize == 0 {
        len, randomSeed, slotLayout, numPlayers := 0, 0, 0, 0;
        return OK;
      }
      if |buf.bytes| < dataSize {
        return Err(ErrInvalidPacketSize);
      }
      var n := buf.ReadUInt8();
      assert buf.bytes == b[3..];
      var slotSize := 9;
      if n > 0 {
        slotSize := Quot(dataSize - 7, n);
      }
      if dataSize != 7 + n * slotSize {
        return Err(ErrInvalidPacketSize);
      }
      Resize(n);
      err := ReadSlots(buf, slotSize);
      if err.Panic? || |buf.bytes| < 6 {
        return Panic;
      }
      ghost var rest := buf.bytes;
      randomSeed := buf.ReadUInt32();
      slotLayout := buf.ReadUInt8();
      numPlayers := buf.ReadUInt8();
      assert buf.bytes == rest[6..];
      return OK;
    }

    /** SlotInfo.Deserialize */
    method Deserialize(buf: Buffer) returns (err: Result)
      requires Valid()
      modifies this, buf
      ensures Valid()
      ensures DecodeSlotInfo(old(buf.bytes)) == Answer(err, View(), buf.bytes)
    {
      hide DecodeContent;
      var size := ReadPacketSize(buf);
      if size < 13 {
        return Err(ErrInvalidPacketSize);
      }
      err := DeserializeContent(buf);
      if err == OK && size != 13 + len * 9 {
        return Err(ErrInvalidPacketSize);
      }
    }
  }

  function Behind(slots: seq<Slot>, more: Outcome<seq<Slot>>): Outcome<seq<Slot>> {
    match more
    case Done(ss, rest) => Done(slots + ss, rest)
    case Failed(err) => Failed(err)
    case Panics => Panics
  }

  lemma BehindNothing(o: Outcome<seq<Slot>>)
    ensures Behind([], o) == o
  {
    assert o.Done? ==> [] + o.value == o.value;
  }

  /** One slot is read, or the buffer is too short for it. */
  lemma SlotsStep(slots: seq<Slot>, b: Bytes, n: nat, slotSize: int)
    requires n > 0
    ensures Behind(slots, DecodeSlots(b, n, slotSize)) ==
            if |b| < SlotWidth(slotSize) then Panics
            else Behind(slots + [DecodeSlot(b, slotSize)], DecodeSlots(b[SlotWidth(slotSize)..], n - 1, slotSize))
  {
    hide DecodeSlot, SlotWidth;
    if |b| >= SlotWidth(slotSize) {
      var s, o := DecodeSlot(b, slotSize), DecodeSlots(b[SlotWidth(slotSize)..], n - 1, slotSize);
      assert o.Done? ==> slots + ([s] + o.value) == slots + [s] + o.value;
    }
  }

  lemma SlotsEnd(slots: seq<Slot>, b: Bytes, slotSize: int)
    ensures Behind(slots, DecodeSlots(b, 0, slotSize)) == Done(slots, b)
  {
    assert slots + [] == slots;
  }
}
