// Exactly what each format can carry: a value is read back as written if and only if the condition of its round trip
// holds (file/w3g/records.go, protocol/w3gs/packets.go).

module RoundTrips {
  import GameInfos
  import Layouts
  import MessageReuse
  import PacketReuse
  import Records
  import StatStrings
  import TimeSlots
  import opened Wire

  /** Decoded actions take exactly the bytes that the size says. */
  lemma {:induction false} ActionsTake(b: Bytes, size: int)
    ensures var o := TimeSlots.DecodeActions(b, size); o.Done? ==> size >= 0 && |o.rest| == |b| - size
    decreases size
  {
    if size >= 3 && |b| >= 3 {
      var subsize := Get16(b[1..]) as int;
      if size >= subsize && |b| >= 3 + subsize {
        ActionsTake(b[3 + subsize..], size - 3 - subsize);
      }
    }
  }

  // ---- Turns --------------------------------------------------------------

  lemma TimeSlotIff(ts: TimeSlots.TimeSlot, crc: TimeSlots.Checksum32)
    ensures TimeSlots.Decode(TimeSlots.Encode(ts, crc), crc) == Done(ts, []) <==>
            8 + |TimeSlots.ActionsBytes(ts.actions)| < 0x1_0000
  {
    hide TimeSlots.ActionsBytes, TimeSlots.DecodeActions, LE16, Get16;
    var b, body := TimeSlots.Encode(ts, crc), TimeSlots.ActionsBytes(ts.actions);
    if 8 + |body| < 0x1_0000 {
      TimeSlots.RoundTrip(ts, [], crc);
      assert b + [] == b;
    } else {
      var size := Lo16(8 + |body|);
      assert b[2..] == LE16(size) + b[4..];
      Get16OfLE16(size, b[4..]);
      if size >= 8 {
        ActionsTake(b[8..], size - 8);
      }
    }
  }

  // ---- Records ------------------------------------------------------------

  lemma LongSlotFails(ts: TimeSlots.TimeSlot, d: Records.Decoding)
    requires 2 + |TimeSlots.ActionsBytes(ts.actions)| >= 0x1_0000
    ensures var o := Records.Decode(Records.Encode(Records.Slot(ts), d.version), d); o.Done? ==> o.rest != []
  {
    hide TimeSlots.ActionsBytes, TimeSlots.DecodeActions, LE16, Get16;
    var b, body := Records.Encode(Records.Slot(ts), d.version), TimeSlots.ActionsBytes(ts.actions);
    var size := Lo16(2 + |body|);
    assert b[1..] == LE16(size) + b[3..];
    Get16OfLE16(size, b[3..]);
    if size >= 2 {
      ActionsTake(b[5..], size - 2);
    }
  }

  lemma LongAckFails(sum: Bytes, d: Records.Decoding)
    requires |sum| >= 0x100
    ensures var o := Records.Decode(Records.Encode(Records.Ack(sum), d.version), d); o.Done? ==> o.rest != []
  {
  }

  lemma {:induction false} MoreTextIsNulFree(b: Bytes, size: int, text: Bytes, printable: Bytes -> bool)
    requires NulFree(text)
    ensures var o := Records.MoreText(b, size, text, printable); o.Done? ==> NulFree(o.value)
    decreases size
  {
    if size > 0 && TakeCString(b).Done? {
      var s, rest := TakeCString(b).value, TakeCString(b).rest;
      MoreTextIsNulFree(rest, size - |s| - 1, text + s, printable);
    }
  }

  /** Whatever bytes a chat text is read from, it has no null byte. */
  lemma TextIsNulFree(b: Bytes, size: int, printable: Bytes -> bool)
    ensures var o := Records.Text(b, size, printable); o.Done? ==> NulFree(o.value)
  {
    if TakeCString(b).Done? {
      var s, rest := TakeCString(b).value, TakeCString(b).rest;
      MoreTextIsNulFree(rest, size - 2 - |s|, s, printable);
    }
  }

  lemma ChatIsNulFree(b: Bytes, printable: Bytes -> bool)
    ensures var o := Records.DecodeChat(b, printable); o.Done? ==> o.value.Chat? && NulFree(o.value.content)
  {
    hide Records.Text, Get16, Get32;
    if |b| >= 5 {
      TextIsNulFree(b[5..], Get16(b[2..]), printable);
      if |b| >= 9 {
        TextIsNulFree(b[9..], Get16(b[2..]) - 4, printable);
      }
    }
  }

  /** A text longer than the size says is refused. */
  lemma LongTextFails(s: Bytes, size: int, printable: Bytes -> bool)
    requires NulFree(s) && size < |s| + 2
    ensures Records.Text(s + [0], size, printable) == Failed(ErrBadFormat)
  {
    TakeCStringOf(s, []);
    assert s + [0] == CString(s) + [];
  }

  /** What DecodeChat does with a text, given what follows its header. */
  lemma ShortSizeFails(b: Bytes, size: int, text: Bytes, printable: Bytes -> bool)
    requires |b| >= 5 && Get16(b[2..]) == size && NulFree(text)
    requires b[4] == 0x10 ==> b[5..] == text + [0] && size < |text| + 2
    requires b[4] == 0x20 ==> |b| >= 9 && b[9..] == text + [0] && size < |text| + 6
    requires b[4] == 0x10 || b[4] == 0x20
    ensures !Records.DecodeChat(b, printable).Done?
  {
    hide Records.Text, Get16, Get32;
    if b[4] == 0x10 {
      LongTextFails(text, size, printable);
    } else {
      LongTextFails(text, size - 4, printable);
    }
  }

  lemma LongChatFails(r: Records.Record, version: nat, printable: Bytes -> bool)
    requires r.Chat? && NulFree(r.content) && |Records.ChatBody(r)| >= 0x1_0000
    ensures !Records.DecodeChat(Records.Encode(r, version), printable).Done?
  {
    hide Records.DecodeChat, LE16, Get16, LE32;
    var b, body := Records.Encode(r, version), Records.ChatBody(r);
    var size: int := Lo16(|body|);
    var front := [0x20, r.sender] + LE16(size);
    assert b == front + body;
    HeadAndBody(b, 0x20, r.sender, size, body);
    if r.kind == 0x20 {
      BodyText(b, [r.kind] + LE32(r.scope), r.content + [0], front);
    } else {
      BodyText(b, [r.kind], r.content + [0], front);
    }
    ShortSizeFails(b, size, r.content, printable);
  }

  lemma HeadAndBody(b: Bytes, id: Byte, sender: Byte, size: UInt16, body: Bytes)
    requires b == [id, sender] + LE16(size) + body && body != []
    ensures Get16(b[2..]) == size && b[4] == body[0]
  {
    hide LE16, Get16;
    assert b[2..] == LE16(size) + body;
    Get16OfLE16(size, body);
  }

  lemma BodyText(b: Bytes, kind: Bytes, text: Bytes, front: Bytes)
    requires b == front + (kind + text)
    ensures b[|front| + |kind|..] == text
  {
  }

  lemma ChatIff(r: Records.Record, d: Records.Decoding)
    requires r.Chat?
    ensures Records.Decode(Records.Encode(r, d.version), d) == Done(Records.Stored(r, d.version), []) <==>
            Records.Storable(r, d.version)
  {
    hide Records.DecodeChat;
    var b := Records.Encode(r, d.version);
    if Records.Storable(r, d.version) {
      Records.RoundTrip(r, d, []);
      assert b + [] == b;
    } else if !Records.Early(d.version) {
      ChatIsNulFree(b, d.printable);
      if NulFree(r.content) {
        LongChatFails(r, d.version, d.printable);
      }
    }
  }

  /** A record is read back, as far as the format stores it, exactly if it is storable. */
  lemma RecordIff(r: Records.Record, d: Records.Decoding)
    requires !r.Other?
    ensures Records.Decode(Records.Encode(r, d.version), d) == Done(Records.Stored(r, d.version), []) <==>
            Records.Storable(r, d.version)
  {
    hide Records.Decode, Records.Encode, Records.Stored;
    var b := Records.Encode(r, d.version);
    if r.Chat? {
      ChatIff(r, d);
    } else if Records.Storable(r, d.version) {
      Records.RoundTrip(r, d, []);
      assert b + [] == b;
    } else if r.Slot? {
      LongSlotFails(r.slot, d);
    } else {
      LongAckFails(r.checksum, d);
    }
  }

  // ---- Packets ------------------------------------------------------------

  lemma {:induction false} SlotsAreCounted(b: Bytes, n: nat, slotSize: int)
    ensures var o := PacketReuse.DecodeSlots(b, n, slotSize); o.Done? ==> |o.value| == n
    decreases n
  {
    if n > 0 && |b| >= PacketReuse.SlotWidth(slotSize) {
      SlotsAreCounted(b[PacketReuse.SlotWidth(slotSize)..], n - 1, slotSize);
    }
  }

  /** No bytes hold more slots than their count byte can say. */
  lemma FewSlots(b: Bytes)
    ensures var o := PacketReuse.DecodeSlotInfo(b); o.Done? ==> |o.value.slots| < 0x100
  {
    hide PacketReuse.DecodeSlots, Get16, Get32, PacketReuse.Quot;
    if |b| >= 7 {
      var n := b[6] as int;
      var slotSize := if n > 0 then PacketReuse.Quot(Get16(b[4..]) - 7, n) else 9;
      SlotsAreCounted(b[7..], n, slotSize);
      assert b[4..][3..] == b[7..];
    }
  }

  lemma SlotInfoIff(si: PacketReuse.SlotInfo)
    ensures PacketReuse.DecodeSlotInfo(PacketReuse.PacketBytes(0x09, PacketReuse.SlotInfoBytes(si))) == Done(si, []) <==>
            |si.slots| < 0x100
  {
    hide PacketReuse.DecodeSlotInfo, PacketReuse.PacketBytes, PacketReuse.SlotInfoBytes;
    var b := PacketReuse.PacketBytes(0x09, PacketReuse.SlotInfoBytes(si));
    FewSlots(b);
    if |si.slots| < 0x100 {
      PacketReuse.SlotInfoRoundTrip(si, []);
      assert b + [] == b;
    }
  }

  lemma FewLags(b: Bytes)
    ensures var o := MessageReuse.DecodeStartLag(b); o.Done? ==> |o.value| < 0x100
  {
    hide MessageReuse.DecodeLags, Get16;
  }

  lemma StartLagIff(ps: seq<PacketReuse.LagPlayer>)
    ensures var b := PacketReuse.PacketBytes(0x10, [|ps| % 0x100] + MessageReuse.LagsBytes(ps));
      MessageReuse.DecodeStartLag(b) == Done(ps, []) <==> |ps| < 0x100
  {
    hide PacketReuse.PacketBytes, MessageReuse.LagsBytes, MessageReuse.DecodeStartLag;
    var b := PacketReuse.PacketBytes(0x10, [|ps| % 0x100] + MessageReuse.LagsBytes(ps));
    FewLags(b);
    if |ps| < 0x100 {
      MessageReuse.StartLagRoundTrip(ps, []);
      assert b + [] == b;
    }
  }

  lemma DesyncIff(d: MessageReuse.Desync)
    ensures MessageReuse.DecodeDesync(PacketReuse.PacketBytes(0x0D, MessageReuse.DesyncBytes(d))) == Done(d, []) <==>
            |d.playersInState| < 0x100
  {
    hide PacketReuse.PacketBytes, MessageReuse.DesyncBytes, Get32;
    var b := PacketReuse.PacketBytes(0x0D, MessageReuse.DesyncBytes(d));
    if |d.playersInState| < 0x100 {
      MessageReuse.DesyncRoundTrip(d, []);
      assert b + [] == b;
    }
  }

  predicate HasText(m: MessageReuse.Message) {
    m.kind == 0x10 || m.kind == 0x20
  }

  /** What any bytes of a message decode to. */
  lemma MessageFits(b: Bytes)
    ensures var o := MessageReuse.DecodeMessage(b);
      o.Done? ==>
        && |o.value.recipients| < 0x100 && NulFree(o.value.content)
        && (HasText(o.value) ==> 8 + |o.value.recipients| + |o.value.content| < 0x1_0000)
        && (o.value.kind == 0x20 ==> 12 + |o.value.recipients| + |o.value.content| < 0x1_0000)
  {
    hide Get32, NulIndex;
    MessageReuse.PacketSizeWithin(b);
  }

  /** A message is read back, as far as its kind sends it, exactly if its text has no null byte and the sizes fit. */
  lemma MessageIff(m: MessageReuse.Message)
    ensures MessageReuse.DecodeMessage(PacketReuse.PacketBytes(0x28, MessageReuse.MessageBytes(m))) ==
              Done(MessageReuse.Sent(m), []) <==>
            && |m.recipients| < 0x100 && 4 + |MessageReuse.MessageBytes(m)| < 0x1_0000
            && (HasText(m) ==> NulFree(m.content))
  {
    hide PacketReuse.PacketBytes, MessageReuse.DecodeMessage;
    var b := PacketReuse.PacketBytes(0x28, MessageReuse.MessageBytes(m));
    MessageFits(b);
    if |m.recipients| < 0x100 && 4 + |MessageReuse.MessageBytes(m)| < 0x1_0000 && (HasText(m) ==> NulFree(m.content)) {
      var sent := MessageReuse.Sent(m);
      assert MessageReuse.MessageBytes(sent) == MessageReuse.MessageBytes(m);
      assert MessageReuse.Sent(sent) == sent;
      MessageReuse.MessageRoundTrip(sent, []);
      assert b + [] == b;
    }
  }

  // ---- GameSettings and GameInfo ------------------------------------------

  /** Whatever bytes settings are read from, their strings have no null byte. */
  lemma SettingsAreNulFree(b: Bytes)
    ensures var o := StatStrings.Decode(b); o.Done? ==> NulFree(o.value.mapPath) && NulFree(o.value.hostName)
  {
    hide Get32, Get16, StatStrings.Unshift, NulIndex;
  }

  lemma SettingsIff(gs: StatStrings.GameSettings)
    requires |gs.mapSha1| == 20
    ensures StatStrings.Decode(StatStrings.Encode(gs)) == Done(gs, []) <==> NulFree(gs.mapPath) && NulFree(gs.hostName)
  {
    hide StatStrings.Decode, StatStrings.Encode;
    var b := StatStrings.Encode(gs);
    SettingsAreNulFree(b);
    if NulFree(gs.mapPath) && NulFree(gs.hostName) {
      StatStrings.RoundTrip(gs, []);
      assert b + [] == b;
    }
  }

  /** Settings without the SHA-1 sum, as old versions wrote them: the sum reads as zeros. */
  lemma OldSettingsAreRead(gs: StatStrings.GameSettings, tail: Bytes)
    requires NulFree(gs.mapPath) && NulFree(gs.hostName) && gs.mapSha1 == []
    ensures StatStrings.Decode(StatStrings.Encode(gs) + tail) == Done(gs.(mapSha1 := Zeros(20)), tail)
  {
    hide StatStrings.Plain, StatStrings.Shift, StatStrings.Unshift, StatStrings.DecodePlain, TakeCString;
    var plain := StatStrings.Plain(gs);
    StatStrings.ShiftIsOdd(plain);
    TakeCStringOf(StatStrings.Shift(plain), tail);
    StatStrings.ShiftLength(plain);
    StatStrings.PlainLength(gs);
    StatStrings.UnshiftOf(plain);
    OldPlainIs(gs);
  }

  lemma OldPlainIs(gs: StatStrings.GameSettings)
    requires NulFree(gs.mapPath) && NulFree(gs.hostName) && gs.mapSha1 == []
    ensures |StatStrings.Plain(gs)| >= 13
    ensures StatStrings.DecodePlain(StatStrings.Plain(gs)) == Done(gs.(mapSha1 := Zeros(20)), [])
  {
    hide LE16, LE32, Get16, Get32, StatStrings.DecodeStrings;
    var b := StatStrings.Plain(gs);
    var strings := CString(gs.mapPath) + (CString(gs.hostName) + [0]);
    Layouts.NumbersLayout(gs.flags, gs.mapWidth, gs.mapHeight, gs.mapXoro, strings);
    assert [0] + gs.mapSha1 == [0];
    assert b == LE32(gs.flags) + ([0] + (LE16(gs.mapWidth) + (LE16(gs.mapHeight) + (LE32(gs.mapXoro) + strings))));
    GetIs32(b, 0);
    assert b[0..] == b;
    GetIs16(b, 5);
    GetIs16(b, 7);
    GetIs32(b, 9);
    OldStringsAre(gs, gs.(mapPath := [], hostName := [], mapSha1 := StatStrings.NO_SHA1));
  }

  lemma OldStringsAre(gs: StatStrings.GameSettings, part: StatStrings.GameSettings)
    requires NulFree(gs.mapPath) && NulFree(gs.hostName)
    requires part == gs.(mapPath := [], hostName := [], mapSha1 := StatStrings.NO_SHA1)
    ensures StatStrings.DecodeStrings(part, CString(gs.mapPath) + (CString(gs.hostName) + [0])) ==
            Done(gs.(mapSha1 := Zeros(20)), [])
  {
    hide TakeCString;
    TakeCStringOf(gs.mapPath, CString(gs.hostName) + [0]);
    TakeCStringOf(gs.hostName, [0]);
    assert Zeros(20) == StatStrings.NO_SHA1;
  }

  /** What any bytes of a GameInfo decode to. */
  lemma InfoFits(b: Bytes)
    ensures var o := GameInfos.DecodeInfo(b);
      o.Done? ==>
        && NulFree(o.value.gameName) && NulFree(o.value.settings.mapPath) && NulFree(o.value.settings.hostName)
        && 44 + |o.value.gameName| + StatStrings.Size(o.value.settings) < 0x1_0000
  {
    hide Get32, Get16, NulIndex, StatStrings.Decode, GameInfos.GetBE32, StatStrings.Size;
    if |b| >= 20 {
      var t := TakeCString(b[20..]);
      if t.Done? && t.rest != [] {
        SettingsAreNulFree(t.rest[1..]);
      }
    }
  }

  lemma GameInfoIff(gi: GameInfos.GameInfo)
    requires |gi.settings.mapSha1| == 20
    ensures GameInfos.DecodeInfo(GameInfos.EncodeInfo(gi)) == Done(gi, []) <==>
            && NulFree(gi.gameName) && NulFree(gi.settings.mapPath) && NulFree(gi.settings.hostName)
            && |GameInfos.EncodeInfo(gi)| < 0x1_0000
  {
    hide GameInfos.DecodeInfo, GameInfos.EncodeInfo, StatStrings.Size;
    var b := GameInfos.EncodeInfo(gi);
    InfoFits(b);
    GameInfos.HeaderIsLength(gi);
    if NulFree(gi.gameName) && NulFree(gi.settings.mapPath) && NulFree(gi.settings.hostName) && |b| < 0x1_0000 {
      GameInfos.InfoRoundTrip(gi, []);
      assert b + [] == b;
    }
  }
}
