// Replay records in numbers (file/w3g/records.go and file/w3g/const.go): which bytes mean which record, for which
// version of the game. Nothing here is said in terms of the encoder.

module RecordLaws {
  import opened Records
  import TimeSlots
  import opened Wire

  // ---- Which record a byte and a version stand for ------------------------

  /** Chat came, and fragments with it, after version 2; 0 is any new version. */
  predicate HasChat(version: nat) {
    version == 0 || version >= 3
  }

  /** Whatever any bytes decode to, the first of them and the version say which record it is. */
  lemma DecodedKind(b: Bytes, d: Decoding)
    requires Decode(b, d).Done?
    ensures |b| >= 2
    ensures var r, id := Decode(b, d).value, b[0] as int;
      && (r.Slot? <==> id == 0x1E || id == 0x1F)
      && (r.Slot? ==> (r.slot.fragment <==> id == 0x1E && (d.version == 0 || d.version >= 3)))
      && (r.Chat? <==> id == 0x20 && (d.version == 0 || d.version >= 3))
      && (r.Ack? <==> id == 0x22 || (id == 0x20 && 1 <= d.version <= 2))
      && (r.PlayerLeft? <==> id == 0x17)
      && (r == CountDownStart <==> id == 0x1A) && (r == CountDownEnd <==> id == 0x1B) && (r == GameStart <==> id == 0x1C)
      && (r.EndTimer? <==> id == 0x2F)
      && (r.Other? <==> id == 0x10 || id == 0x16 || id == 0x19 || id == 0x23 || id == 0x39)
  {
    hide Get16, Get32, Text, TimeSlots.DecodeActions;
  }

  // ---- Chat ---------------------------------------------------------------

  /** The bytes of a chat text with its terminator are that text, and nothing is joined to it. */
  lemma TextIs(text: Bytes, tail: Bytes, printable: Bytes -> bool)
    requires NulFree(text)
    ensures Text(text + [0] + tail, |text| + 2, printable) == Done(text, tail)
  {
    TakeCStringOf(text, tail);
    assert text + [0] + tail == CString(text) + tail;
  }

  /** A text to everybody in a lobby or after the game, in every version that has chat. */
  lemma ChatIsRead(sender: Byte, text: Bytes, tail: Bytes, d: Decoding)
    requires HasChat(d.version) && NulFree(text) && |text| + 2 < 0x1_0000
    ensures var n := |text| + 2;
      Decode([0x20, sender, n % 0x100, n / 0x100, 0x10] + (text + [0] + tail), d) ==
        Done(Chat([], sender, 0x10, 0, 0, text), tail)
  {
    hide Text;
    var n := |text| + 2;
    var b := [0x20, sender, n % 0x100, n / 0x100, 0x10] + (text + [0] + tail);
    assert b[5..] == text + [0] + tail;
    GetIs16(b, 2);
    TextIs(text, tail, d.printable);
  }

  /** A text in the game, with its scope. */
  lemma ScopedChatIsRead(sender: Byte, s0: Byte, s1: Byte, s2: Byte, s3: Byte, text: Bytes, tail: Bytes, d: Decoding)
    requires HasChat(d.version) && NulFree(text) && |text| + 6 < 0x1_0000
    ensures var n := |text| + 6;
      var scope := s0 as int + 0x100 * s1 as int + 0x1_0000 * s2 as int + 0x100_0000 * s3 as int;
      Decode([0x20, sender, n % 0x100, n / 0x100, 0x20, s0, s1, s2, s3] + (text + [0] + tail), d) ==
        Done(Chat([], sender, 0x20, 0, scope, text), tail)
  {
    hide Text, Get32;
    var n := |text| + 6;
    var b := [0x20, sender, n % 0x100, n / 0x100, 0x20, s0, s1, s2, s3] + (text + [0] + tail);
    assert b[9..] == text + [0] + tail;
    GetIs16(b, 2);
    GetIs32(b, 5);
    TextIs(text, tail, d.printable);
  }

  /** Any other kind carries one byte. */
  lemma ChangeIsRead(sender: Byte, kind: Byte, val: Byte, tail: Bytes, d: Decoding)
    requires HasChat(d.version) && kind != 0x10 && kind != 0x20
    ensures Decode([0x20, sender, 2, 0, kind, val] + tail, d) == Done(Chat([], sender, kind, val, 0, []), tail)
  {
    hide Text, Get32;
    var b := [0x20, sender, 2, 0, kind, val] + tail;
    GetIs16(b, 2);
    assert b[6..] == tail;
  }

  /** A second text within the size is joined to the first if it is printable; otherwise the record is refused. */
  lemma JoinedChatIsRead(sender: Byte, s: Bytes, t: Bytes, tail: Bytes, d: Decoding)
    requires HasChat(d.version) && NulFree(s) && NulFree(t) && |s| + |t| + 3 < 0x1_0000
    ensures var n := |s| + |t| + 3;
      Decode([0x20, sender, n % 0x100, n / 0x100, 0x10] + (s + [0] + (t + [0] + tail)), d) ==
        if d.printable(t) then Done(Chat([], sender, 0x10, 0, 0, s + t), tail) else Failed(ErrBadFormat)
  {
    hide Text, Get32;
    var n := |s| + |t| + 3;
    var b := [0x20, sender, n % 0x100, n / 0x100, 0x10] + (s + [0] + (t + [0] + tail));
    assert b[5..] == s + [0] + (t + [0] + tail);
    GetIs16(b, 2);
    TextsAre(s, t, tail, d.printable);
  }

  lemma TextsAre(s: Bytes, t: Bytes, tail: Bytes, printable: Bytes -> bool)
    requires NulFree(s) && NulFree(t)
    ensures Text(s + [0] + (t + [0] + tail), |s| + |t| + 3, printable) ==
            if printable(t) then Done(s + t, tail) else Failed(ErrBadFormat)
  {
    hide TakeCString;
    TakeCStringOf(s, t + [0] + tail);
    TakeCStringOf(t, tail);
    assert CString(s) + (t + [0] + tail) == s + [0] + (t + [0] + tail);
    assert CString(t) + tail == t + [0] + tail;
    assert MoreText(tail, 0, s + t, printable) == Done(s + t, tail);
    assert MoreText(t + [0] + tail, |t| + 1, s, printable) ==
           if printable(t) then Done(s + t, tail) else Failed(ErrBadFormat);
  }

  // ---- The other records --------------------------------------------------

  /** An ack, under either id. */
  lemma AckIsRead(id: Byte, sum: Bytes, tail: Bytes, d: Decoding)
    requires |sum| < 0x100 && (id == 0x22 || (id == 0x20 && 1 <= d.version <= 2))
    ensures Decode([id, |sum|] + (sum + tail), d) == Done(Ack(sum), tail)
  {
    var b := [id, |sum|] + (sum + tail);
    assert b[2..2 + |sum|] == sum && b[2 + |sum|..] == tail;
  }

  /** A turn with one action: increment, player and data are where they are. */
  lemma SlotIsRead(id: Byte, inc: UInt16, player: Byte, data: Bytes, tail: Bytes, d: Decoding)
    requires (id == 0x1E || id == 0x1F) && 5 + |data| < 0x1_0000
    ensures var n, fragment := 5 + |data|, id == 0x1E && HasChat(d.version);
      Decode([id, n % 0x100, n / 0x100, inc % 0x100, inc / 0x100, player, |data| % 0x100, |data| / 0x100] + (data + tail), d)
        == Done(Slot(TimeSlots.TimeSlot(fragment, inc, [TimeSlots.PlayerAction(player, data)])), tail)
  {
    hide TimeSlots.DecodeActions, Get16;
    var n := 5 + |data|;
    var action := [player, |data| % 0x100, |data| / 0x100] + (data + tail);
    var b := [id, n % 0x100, n / 0x100, inc % 0x100, inc / 0x100, player, |data| % 0x100, |data| / 0x100] + (data + tail);
    GetIs16(b, 1);
    GetIs16(b, 3);
    assert b[5..] == action;
    ActionIsRead(player, data, tail);
  }

  lemma ActionIsRead(player: Byte, data: Bytes, tail: Bytes)
    requires |data| < 0x1_0000
    ensures TimeSlots.DecodeActions([player, |data| % 0x100, |data| / 0x100] + (data + tail), 3 + |data|) ==
            Done([TimeSlots.PlayerAction(player, data)], tail)
  {
    var b := [player, |data| % 0x100, |data| / 0x100] + (data + tail);
    GetIs16(b, 1);
    assert b[3..3 + |data|] == data && b[3 + |data|..] == tail;
    assert TimeSlots.DecodeActions(tail, 0) == Done([], tail);
    var actions := [TimeSlots.PlayerAction(player, data)];
    assert actions + [] == actions;
  }

  /** Exactly which bytes are a PlayerLeft record, and what they say. */
  lemma PlayerLeftIs(b: Bytes, d: Decoding)
    requires |b| >= 2 && b[0] == 0x17
    ensures Decode(b, d).Done? <==> |b| >= 14 && (U32(b, 1) == 1 || U32(b, 1) == 12 || U32(b, 1) == 14)
    ensures Decode(b, d).Done? ==>
      Decode(b, d) == Done(PlayerLeft(U32(b, 1) == 12, b[5], U32(b, 6), U32(b, 10)), b[14..])
  {
    hide Get32;
    if |b| >= 14 {
      GetIs32(b, 1);
      GetIs32(b, 6);
      GetIs32(b, 10);
    }
  }

  /** Exactly which bytes are an EndTimer record, and what they say. */
  lemma EndTimerIs(b: Bytes, d: Decoding)
    requires |b| >= 2 && b[0] == 0x2F
    ensures Decode(b, d).Done? <==> |b| >= 9
    ensures Decode(b, d).Done? ==> Decode(b, d) == Done(EndTimer(U32(b, 1) > 0, U32(b, 5)), b[9..])
  {
    hide Get32;
    if |b| >= 9 {
      GetIs32(b, 1);
      GetIs32(b, 5);
    }
  }

  /** The records of a start carry the number one. */
  lemma StartIs(b: Bytes, d: Decoding)
    requires |b| >= 2 && 0x1A <= b[0] <= 0x1C
    ensures Decode(b, d).Done? <==> |b| >= 5 && U32(b, 1) == 1
    ensures Decode(b, d).Done? ==> Decode(b, d).rest == b[5..]
  {
    hide Get32;
    if |b| >= 5 {
      GetIs32(b, 1);
    }
  }

  // ---- What is written ----------------------------------------------------

  /** The first byte that a record is written with; so reading it back gives the same kind of record. */
  lemma WrittenId(r: Record, version: nat)
    requires !r.Other?
    ensures |Encode(r, version)| >= 2
    ensures Encode(r, version)[0] ==
      match r
      case Slot(ts) => if ts.fragment || 1 <= version <= 2 then 0x1E else 0x1F
      case Chat(_, _, _, _, _, _) => 0x20
      case Ack(_) => if 1 <= version <= 2 then 0x20 else 0x22
      case PlayerLeft(_, _, _, _) => 0x17
      case EndTimer(_, _) => 0x2F
      case GameStart => 0x1C
      case CountDownStart => 0x1A
      case CountDownEnd => 0x1B
  {
    hide LE16, LE32;
  }

  /** The numbers that a PlayerLeft record and an EndTimer record are written with. */
  lemma WrittenNumbers(local: bool, id: Byte, reason: UInt32, counter: UInt32, over: bool, sec: UInt32, version: nat)
    ensures var b := Encode(PlayerLeft(local, id, reason, counter), version);
      |b| == 14 && U32(b, 1) == (if local then 12 else 1) && b[5] == id && U32(b, 6) == reason && U32(b, 10) == counter
    ensures var b := Encode(EndTimer(over, sec), version);
      |b| == 9 && U32(b, 1) == (if over then 1 else 0) && U32(b, 5) == sec
  {
    hide LE32, Get32, U32, Decode;
    LeftNumbers(local, id, reason, counter, version);
    TimerNumbers(over, sec, version);
  }

  lemma LeftNumbers(local: bool, id: Byte, reason: UInt32, counter: UInt32, version: nat)
    ensures var b := Encode(PlayerLeft(local, id, reason, counter), version);
      |b| == 14 && U32(b, 1) == (if local then 12 else 1) && b[5] == id && U32(b, 6) == reason && U32(b, 10) == counter
  {
    hide LE32, Get32, U32;
    var b := Encode(PlayerLeft(local, id, reason, counter), version);
    var how: UInt32 := if local then 12 else 1;
    assert b == [0x17] + LE32(how) + ([id] + LE32(reason) + LE32(counter));
    WordAt([0x17], how, [id] + LE32(reason) + LE32(counter));
    GetIs32(b, 1);
    var pre := [0x17] + LE32(how) + [id];
    assert b == pre + LE32(reason) + LE32(counter);
    WordAt(pre, reason, LE32(counter));
    GetIs32(b, 6);
    assert b == (pre + LE32(reason)) + LE32(counter) + [];
    WordAt(pre + LE32(reason), counter, []);
    GetIs32(b, 10);
  }

  lemma TimerNumbers(over: bool, sec: UInt32, version: nat)
    ensures var b := Encode(EndTimer(over, sec), version);
      |b| == 9 && U32(b, 1) == (if over then 1 else 0) && U32(b, 5) == sec
  {
    hide LE32, Get32, U32;
    var b := Encode(EndTimer(over, sec), version);
    var flag: UInt32 := if over then 1 else 0;
    assert b == [0x2F] + LE32(flag) + LE32(sec);
    WordAt([0x2F], flag, LE32(sec));
    GetIs32(b, 1);
    assert b == ([0x2F] + LE32(flag)) + LE32(sec) + [];
    WordAt([0x2F] + LE32(flag), sec, []);
    GetIs32(b, 5);
  }

  /** The format holds every chat message with NUL-free text that fits, exactly in the versions that have chat. */
  lemma ChatIsStorableIff(sender: Byte, text: Bytes, version: nat)
    requires NulFree(text) && |text| + 2 < 0x1_0000
    ensures Storable(Chat([], sender, 0x10, 0, 0, text), version) <==> version == 0 || version >= 3
  {
  }
}
