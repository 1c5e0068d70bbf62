// Writing replay records (file/w3g/records.go, the Serialize methods).

module RecordWriter {
  import opened Records
  import TimeSlots
  import opened Wire

  /** TimeSlot.Serialize: the size is filled in when the actions are there. */
  method SerializeSlot(ts: TimeSlots.TimeSlot, version: nat, buf: Buffer)
    modifies buf
    ensures buf.bytes == old(buf.bytes) + SlotBytes(ts, version)
  {
    hide TimeSlots.ActionsBytes;
    ghost var pre, body := buf.bytes, TimeSlots.ActionsBytes(ts.actions);
    var id := if ts.fragment || Early(version) then RID_TIMESLOT2 else RID_TIMESLOT;
    buf.WriteUInt8(id);
    buf.WriteUInt16(0);
    var start := |buf.bytes|;
    buf.WriteUInt16(ts.timeIncrementMS);
    TimeSlots.WriteActions(ts.actions, buf);
    var size := Lo16(|buf.bytes| - start);
    Patch(pre + [id], size, LE16(ts.timeIncrementMS) + body);
    assert buf.bytes == pre + [id] + LE16(0) + (LE16(ts.timeIncrementMS) + body);
    buf.WriteUInt16At(start - 2, size);
    assert buf.bytes == pre + ([id] + LE16(size) + LE16(ts.timeIncrementMS) + body);
  }

  /** Overwriting a zero size between two byte strings. */
  lemma Patch(pre: Bytes, size: UInt16, post: Bytes)
    ensures var b := pre + LE16(0) + post; b[..|pre|] + LE16(size) + b[|pre| + 2..] == pre + LE16(size) + post
  {
    var b := pre + LE16(0) + post;
    assert b[..|pre|] == pre;
    assert b[|pre| + 2..] == post;
  }

  /** ChatMessage.Serialize: the size is worked out before the body is written. */
  method SerializeChat(r: Record, version: nat, buf: Buffer)
    requires r.Chat?
    modifies buf
    ensures buf.bytes == old(buf.bytes) + Encode(r, version)
  {
    hide LE32, LE16;
    ghost var pre := buf.bytes;
    buf.WriteUInt8(RID_CHAT_MESSAGE);
    buf.WriteUInt8(r.sender);
    if r.kind == MSG_CHAT_EXTRA {
      buf.WriteUInt16(Lo16(6 + |r.content|));
    } else if r.kind == MSG_CHAT {
      buf.WriteUInt16(Lo16(2 + |r.content|));
    } else {
      buf.WriteUInt16(2);
    }
    assert buf.bytes == pre + ([RID_CHAT_MESSAGE, r.sender] + LE16(Lo16(|ChatBody(r)|)));
    ghost var head := buf.bytes;
    buf.WriteUInt8(r.kind);
    if r.kind == MSG_CHAT_EXTRA || r.kind == MSG_CHAT {
      if r.kind == MSG_CHAT_EXTRA {
        buf.WriteUInt32(r.scope);
      }
      buf.WriteCString(r.content);
    } else {
      buf.WriteUInt8(r.newVal);
    }
    assert buf.bytes == head + ChatBody(r);
  }

  method SerializePlayerLeft(r: Record, version: nat, buf: Buffer)
    requires r.PlayerLeft?
    modifies buf
    ensures buf.bytes == old(buf.bytes) + Encode(r, version)
  {
    hide LE32;
    ghost var pre := buf.bytes;
    buf.WriteUInt8(RID_PLAYER_LEFT);
    if r.local {
      buf.WriteUInt32(0x0C);
    } else {
      buf.WriteUInt32(0x01);
    }
    ghost var front := [RID_PLAYER_LEFT] + LE32(if r.local then 0x0C else 0x01);
    assert buf.bytes == pre + front;
    buf.WriteUInt8(r.playerID);
    buf.WriteUInt32(r.reason);
    buf.WriteUInt32(r.counter);
    assert buf.bytes == pre + (front + [r.playerID] + LE32(r.reason) + LE32(r.counter));
  }

  method SerializeWord(id: Byte, v: UInt32, buf: Buffer)
    modifies buf
    ensures buf.bytes == old(buf.bytes) + ([id] + LE32(v))
  {
    hide LE32;
    buf.WriteUInt8(id);
    buf.WriteUInt32(v);
  }

  /** The acks, the timer and the start records are an id and a fixed layout. */
  method SerializeFixed(r: Record, version: nat, buf: Buffer)
    requires r.Ack? || r.EndTimer? || r.GameStart? || r.CountDownStart? || r.CountDownEnd?
    modifies buf
    ensures buf.bytes == old(buf.bytes) + Encode(r, version)
  {
    hide LE32;
    ghost var pre := buf.bytes;
    match r
    case Ack(sum) =>
      buf.WriteUInt8(if !Early(version) then RID_TIMESLOT_ACK else RID_CHAT_MESSAGE);
      buf.WriteUInt8(|sum| % 0x100);
      buf.WriteBlob(sum);
      assert buf.bytes == pre + Encode(r, version);
    case EndTimer(over, sec) =>
      SerializeWord(RID_END_TIMER, if over then 1 else 0, buf);
      buf.WriteUInt32(sec);
      assert buf.bytes == pre + Encode(r, version);
    case GameStart => SerializeWord(RID_GAME_START, 1, buf);
    case CountDownStart => SerializeWord(RID_COUNTDOWN_START, 1, buf);
    case CountDownEnd => SerializeWord(RID_COUNTDOWN_END, 1, buf);
  }

  /** RecordEncoder.Serialize appends what the reader's side calls the record's bytes. */
  method Serialize(r: Record, version: nat, buf: Buffer)
    requires !r.Other?
    modifies buf
    ensures buf.bytes == old(buf.bytes) + Encode(r, version)
  {
    if r.Slot? {
      SerializeSlot(r.slot, version, buf);
    } else if r.Chat? {
      SerializeChat(r, version, buf);
    } else if r.PlayerLeft? {
      SerializePlayerLeft(r, version, buf);
    } else {
      SerializeFixed(r, version, buf);
    }
  }
}
