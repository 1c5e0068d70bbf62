// Replay records (file/w3g/records.go): their bytes, what any bytes decode to, and the way back.

module Records {
  import opened Wire
  import opened TimeSlots

  const RID_PLAYER_LEFT: Byte := 0x17
  const RID_COUNTDOWN_START: Byte := 0x1A
  const RID_COUNTDOWN_END: Byte := 0x1B
  const RID_GAME_START: Byte := 0x1C
  const RID_TIMESLOT2: Byte := 0x1E
  const RID_TIMESLOT: Byte := 0x1F
  const RID_CHAT_MESSAGE: Byte := 0x20
  const RID_TIMESLOT_ACK: Byte := 0x22
  const RID_END_TIMER: Byte := 0x2F

  /** GameInfo, PlayerInfo, SlotInfo, Desync and PlayerExtra. */
  const OTHER_RIDS: set<Byte> := {0x10, 0x16, 0x19, 0x23, 0x39}

  const MSG_CHAT: Byte := 0x10
  const MSG_CHAT_EXTRA: Byte := 0x20

  datatype Record =
    | Slot(slot: TimeSlot)
    | Chat(recipients: Bytes, sender: Byte, kind: Byte, newVal: Byte, scope: UInt32, content: Bytes)
    | Ack(checksum: Bytes)
    | PlayerLeft(local: bool, playerID: Byte, reason: UInt32, counter: UInt32)
    | EndTimer(gameOver: bool, countDownSec: UInt32)
    | GameStart
    | CountDownStart
    | CountDownEnd
    | Other(bytes: Bytes)

  /** How a decoder of another record type leaves the buffer: n bytes after the id taken, or an error. */
  datatype Taken = Took(n: nat) | Refused(err: Error)

  /** The game version; unicode.IsPrint on every rune of a string; and any decoders for the other record types. */
  datatype Decoding = Decoding(version: nat, printable: Bytes -> bool, others: Bytes -> Taken)

  /** Versions 1 and 2 know no fragments and no chat messages. */
  predicate Early(version: nat) {
    0 < version <= 2
  }

  // ---- Bytes --------------------------------------------------------------

  function SlotBytes(ts: TimeSlot, version: nat): Bytes {
    var body := ActionsBytes(ts.actions);
    [if ts.fragment || Early(version) then RID_TIMESLOT2 else RID_TIMESLOT]
    + LE16(Lo16(2 + |body|)) + LE16(ts.timeIncrementMS) + body
  }

  /** What follows the size field of a chat message. */
  function ChatBody(r: Record): Bytes
    requires r.Chat?
  {
    if r.kind == MSG_CHAT_EXTRA then [r.kind] + LE32(r.scope) + CString(r.content)
    else if r.kind == MSG_CHAT then [r.kind] + CString(r.content)
    else [r.kind, r.newVal]
  }

  function Encode(r: Record, version: nat): Bytes
    requires !r.Other?
  {
    match r
    case Slot(ts) => SlotBytes(ts, version)
    case Chat(_, sender, _, _, _, _) => [RID_CHAT_MESSAGE, sender] + LE16(Lo16(|ChatBody(r)|)) + ChatBody(r)
    case Ack(sum) => [if Early(version) then RID_CHAT_MESSAGE else RID_TIMESLOT_ACK, |sum| % 0x100] + sum
    case PlayerLeft(local, id, reason, counter) =>
      [RID_PLAYER_LEFT] + LE32(if local then 0x0C else 0x01) + [id] + LE32(reason) + LE32(counter)
    case EndTimer(over, sec) => [RID_END_TIMER] + LE32(if over then 1 else 0) + LE32(sec)
    case GameStart => [RID_GAME_START] + LE32(1)
    case CountDownStart => [RID_COUNTDOWN_START] + LE32(1)
    case CountDownEnd => [RID_COUNTDOWN_END] + LE32(1)
  }

  // ---- What Deserialize makes of any bytes --------------------------------

  function DecodeSlot(b: Bytes, version: nat): Outcome<Record> {
    if |b| < 5 then Failed(ErrShortBuffer)
    else
      var size := Get16(b[1..]) as int;
      if size < 2 || |b| - 3 < size then Failed(ErrShortBuffer)
      else
        match DecodeActions(b[5..], size - 2)
        case Done(actions, rest) =>
          Done(Slot(TimeSlot(b[0] == RID_TIMESLOT2 && !Early(version), Get16(b[3..]), actions)), rest)
        case Failed(_) => Failed(ErrBadFormat)
        case Panics => Panics
  }

  /** Strings after the first are joined to it while they are printable. */
  function MoreText(b: Bytes, size: int, text: Bytes, printable: Bytes -> bool): Outcome<Bytes>
    decreases size
  {
    if size <= 0 then
      if size != 0 then Failed(ErrBadFormat) else Done(text, b)
    else
      match TakeCString(b)
      case Done(s, rest) =>
        if !printable(s) then Failed(ErrBadFormat) else MoreText(rest, size - |s| - 1, text + s, printable)
      case Failed(err) => Failed(err)
      case Panics => Panics
  }

  function Text(b: Bytes, size: int, printable: Bytes -> bool): Outcome<Bytes> {
    match TakeCString(b)
    case Done(s, rest) => MoreText(rest, size - 2 - |s|, s, printable)
    case Failed(err) => Failed(err)
    case Panics => Panics
  }

  function AsChat(sender: Byte, kind: Byte, scope: UInt32, text: Outcome<Bytes>): Outcome<Record> {
    match text
    case Done(content, rest) => Done(Chat([], sender, kind, 0, scope, content), rest)
    case Failed(err) => Failed(err)
    case Panics => Panics
  }

  /** The guard asks for three bytes and the reads take four. */
  function DecodeChat(b: Bytes, printable: Bytes -> bool): Outcome<Record> {
    if |b| < 3 then Failed(ErrShortBuffer)
    else if |b| == 3 then Panics
    else
      var size := Get16(b[2..]) as int;
      if size < 2 || |b| - 4 < size then Failed(ErrShortBuffer)
      else if b[4] == MSG_CHAT_EXTRA then
        if size < 6 then Failed(ErrBadFormat)
        else AsChat(b[1], b[4], Get32(b[5..]), Text(b[9..], size - 4, printable))
      else if b[4] == MSG_CHAT then AsChat(b[1], b[4], 0, Text(b[5..], size, printable))
      else if size != 2 then Failed(ErrBadFormat)
      else Done(Chat([], b[1], b[4], b[5], 0, []), b[6..])
  }

  function DecodeAck(b: Bytes): Outcome<Record> {
    if |b| < 2 || |b| - 2 < b[1] then Failed(ErrShortBuffer) else Done(Ack(b[2..2 + b[1]]), b[2 + b[1]..])
  }

  function DecodePlayerLeft(b: Bytes): Outcome<Record> {
    if |b| < 14 then Failed(ErrShortBuffer)
    else
      var how := Get32(b[1..]);
      if how != 0x01 && how != 0x0E && how != 0x0C then Failed(ErrUnexpectedConst)
      else Done(PlayerLeft(how == 0x0C, b[5], Get32(b[6..]), Get32(b[10..])), b[14..])
  }

  function DecodeEndTimer(b: Bytes): Outcome<Record> {
    if |b| < 9 then Failed(ErrShortBuffer) else Done(EndTimer(Get32(b[1..]) > 0, Get32(b[5..])), b[9..])
  }

  function DecodeStart(b: Bytes, r: Record): Outcome<Record> {
    if |b| < 5 then Failed(ErrShortBuffer)
    else if Get32(b[1..]) != 1 then Failed(ErrUnexpectedConst)
    else Done(r, b[5..])
  }

  /** Taking more than there is panics. */
  function DecodeOther(b: Bytes, taken: Taken): Outcome<Record>
    requires |b| > 0
  {
    match taken
    case Took(n) => if 1 + n <= |b| then Done(Other(b[..1 + n]), b[1 + n..]) else Panics
    case Refused(err) => Failed(err)
  }

  /** RecordDecoder.Deserialize over DefaultFactory: the type depends on the id and the version. */
  function Decode(b: Bytes, d: Decoding): Outcome<Record> {
    if |b| < 2 then Failed(ErrUnexpectedEOF)
    else if b[0] == RID_PLAYER_LEFT then DecodePlayerLeft(b)
    else if b[0] == RID_COUNTDOWN_START then DecodeStart(b, CountDownStart)
    else if b[0] == RID_COUNTDOWN_END then DecodeStart(b, CountDownEnd)
    else if b[0] == RID_GAME_START then DecodeStart(b, GameStart)
    else if b[0] == RID_TIMESLOT2 || b[0] == RID_TIMESLOT then DecodeSlot(b, d.version)
    else if b[0] == RID_CHAT_MESSAGE && !Early(d.version) then DecodeChat(b, d.printable)
    else if b[0] == RID_CHAT_MESSAGE || b[0] == RID_TIMESLOT_ACK then DecodeAck(b)
    else if b[0] == RID_END_TIMER then DecodeEndTimer(b)
    else if b[0] in OTHER_RIDS then DecodeOther(b, d.others(b))
    else Failed(ErrUnknownRecord)
  }

  // ---- Round trip ---------------------------------------------------------

  /** What the format can hold: sizes fit their fields, text is NUL-free, early versions have no chat. */
  predicate Storable(r: Record, version: nat) {
    match r
    case Slot(ts) => 2 + |ActionsBytes(ts.actions)| < 0x1_0000
    case Chat(_, _, kind, _, _, content) =>
      && !Early(version) && |ChatBody(r)| < 0x1_0000
      && (kind == MSG_CHAT || kind == MSG_CHAT_EXTRA ==> NulFree(content))
    case Ack(sum) => |sum| < 0x100
    case Other(_) => false
    case _ => true
  }

  /** The record without the fields that the format does not store. */
  function Stored(r: Record, version: nat): Record {
    match r
    case Slot(ts) => Slot(ts.(fragment := ts.fragment && !Early(version)))
    case Chat(_, sender, kind, newVal, scope, content) =>
      if kind == MSG_CHAT_EXTRA then Chat([], sender, kind, 0, scope, content)
      else if kind == MSG_CHAT then Chat([], sender, kind, 0, 0, content)
      else Chat([], sender, kind, newVal, 0, [])
    case _ => r
  }

  lemma SlotRoundTrip(ts: TimeSlot, version: nat, tail: Bytes)
    requires Storable(Slot(ts), version)
    ensures DecodeSlot(SlotBytes(ts, version) + tail, version) == Done(Stored(Slot(ts), version), tail)
  {
    hide LE16, Get16, ActionsBytes, DecodeActions;
    var body := ActionsBytes(ts.actions);
    var b := SlotBytes(ts, version) + tail;
    assert b[1..] == LE16(2 + |body|) + (LE16(ts.timeIncrementMS) + (body + tail));
    Get16OfLE16(2 + |body|, LE16(ts.timeIncrementMS) + (body + tail));
    assert b[3..] == LE16(ts.timeIncrementMS) + (body + tail);
    Get16OfLE16(ts.timeIncrementMS, body + tail);
    assert b[5..] == body + tail;
    DecodeActionsOf(ts.actions, tail);
  }

  lemma TextOf(s: Bytes, tail: Bytes, printable: Bytes -> bool)
    requires NulFree(s)
    ensures Text(CString(s) + tail, |s| + 2, printable) == Done(s, tail)
  {
    TakeCStringOf(s, tail);
  }

  lemma ChatRoundTrip(r: Record, version: nat, tail: Bytes, printable: Bytes -> bool)
    requires r.Chat? && Storable(r, version)
    ensures DecodeChat(Encode(r, version) + tail, printable) == Done(Stored(r, version), tail)
  {
    hide LE16, Get16, LE32, Get32, Text;
    var body := ChatBody(r);
    var b := Encode(r, version) + tail;
    assert b[2..] == LE16(|body|) + (body + tail);
    Get16OfLE16(|body|, body + tail);
    assert b[4..] == body + tail;
    if r.kind == MSG_CHAT_EXTRA {
      assert b[5..] == LE32(r.scope) + (CString(r.content) + tail);
      Get32OfLE32(r.scope, CString(r.content) + tail);
      assert b[9..] == CString(r.content) + tail;
      TextOf(r.content, tail, printable);
    } else if r.kind == MSG_CHAT {
      assert b[5..] == CString(r.content) + tail;
      TextOf(r.content, tail, printable);
    } else {
      assert b[6..] == tail;
    }
  }

  /** A word in the middle of a byte string. */
  lemma WordAt(pre: Bytes, v: UInt32, post: Bytes)
    ensures var b := pre + LE32(v) + post; Get32(b[|pre|..]) == v && b[|pre| + 4..] == post
  {
    var b := pre + LE32(v) + post;
    assert b[|pre|..] == LE32(v) + post;
    Get32OfLE32(v, post);
    assert b[|pre| + 4..] == post;
  }

  lemma PlayerLeftRoundTrip(r: Record, version: nat, tail: Bytes)
    requires r.PlayerLeft?
    ensures DecodePlayerLeft(Encode(r, version) + tail) == Done(r, tail)
  {
    hide LE32, Get32;
    var b := Encode(r, version) + tail;
    var how: UInt32 := if r.local then 0x0C else 0x01;
    var front := [RID_PLAYER_LEFT] + LE32(how) + [r.playerID];
    var back := LE32(r.reason) + LE32(r.counter) + tail;
    assert b == [RID_PLAYER_LEFT] + LE32(how) + ([r.playerID] + back);
    WordAt([RID_PLAYER_LEFT], how, [r.playerID] + back);
    assert b == front + LE32(r.reason) + (LE32(r.counter) + tail);
    WordAt(front, r.reason, LE32(r.counter) + tail);
    assert b == (front + LE32(r.reason)) + LE32(r.counter) + tail;
    WordAt(front + LE32(r.reason), r.counter, tail);
  }

  lemma EndTimerRoundTrip(r: Record, version: nat, tail: Bytes)
    requires r.EndTimer?
    ensures DecodeEndTimer(Encode(r, version) + tail) == Done(r, tail)
  {
    var b := Encode(r, version) + tail;
    var over: UInt32 := if r.gameOver then 1 else 0;
    assert b[1..] == LE32(over) + (LE32(r.countDownSec) + tail);
    Get32OfLE32(over, LE32(r.countDownSec) + tail);
    assert b[5..] == LE32(r.countDownSec) + tail;
    Get32OfLE32(r.countDownSec, tail);
    assert b[9..] == tail;
  }

  lemma StartRoundTrip(id: Byte, r: Record, tail: Bytes)
    ensures DecodeStart([id] + LE32(1) + tail, r) == Done(r, tail)
  {
    var b := [id] + LE32(1) + tail;
    assert b[1..] == LE32(1) + tail;
    Get32OfLE32(1, tail);
    assert b[5..] == tail;
  }

  lemma AckRoundTrip(r: Record, version: nat, tail: Bytes)
    requires r.Ack? && Storable(r, version)
    ensures DecodeAck(Encode(r, version) + tail) == Done(r, tail)
  {
    var b := Encode(r, version) + tail;
    assert b[2..2 + |r.checksum|] == r.checksum;
    assert b[2 + |r.checksum|..] == tail;
  }

  /** Every record the format can hold decodes, for every version, to what it stores, and leaves what follows it. */
  lemma RoundTrip(r: Record, d: Decoding, tail: Bytes)
    requires Storable(r, d.version)
    ensures Decode(Encode(r, d.version) + tail, d) == Done(Stored(r, d.version), tail)
  {
    hide DecodeSlot, DecodeChat, DecodeAck, DecodePlayerLeft, DecodeEndTimer, DecodeStart;
    match r
    case Slot(ts) => SlotRoundTrip(ts, d.version, tail);
    case Chat(_, _, _, _, _, _) => ChatRoundTrip(r, d.version, tail, d.printable);
    case Ack(_) => AckRoundTrip(r, d.version, tail);
    case PlayerLeft(_, _, _, _) => PlayerLeftRoundTrip(r, d.version, tail);
    case EndTimer(_, _) => EndTimerRoundTrip(r, d.version, tail);
    case GameStart => StartRoundTrip(RID_GAME_START, r, tail);
    case CountDownStart => StartRoundTrip(RID_COUNTDOWN_START, r, tail);
    case CountDownEnd => StartRoundTrip(RID_COUNTDOWN_END, r, tail);
  }

  /** A record never starts like padding. */
  lemma StartsNonzero(r: Record, version: nat)
    requires !r.Other?
    ensures |Encode(r, version)| >= 2 && Encode(r, version)[0] != 0
  {
  }

  // ---- Cut records --------------------------------------------------------

  lemma SizeField(b: Bytes, size: UInt16)
    requires |b| >= 2 && b[0] == LE16(size)[0] && b[1] == LE16(size)[1]
    ensures Get16(b) == size
  {
    assert b == LE16(size) + b[2..];
    Get16OfLE16(size, b[2..]);
  }

  /** The front of a long time slot is seen to be too short. */
  lemma SlotCut(ts: TimeSlot, version: nat, w: nat)
    requires Storable(Slot(ts), version) && w < |SlotBytes(ts, version)|
    ensures DecodeSlot(SlotBytes(ts, version)[..w], version) == Failed(ErrShortBuffer)
  {
    var body := ActionsBytes(ts.actions);
    var b := SlotBytes(ts, version)[..w];
    if w >= 5 {
      SizeField(b[1..], 2 + |body|);
    }
  }

  /** And so is the front of a chat message, if it holds the size. */
  lemma ChatCut(r: Record, version: nat, w: nat, printable: Bytes -> bool)
    requires r.Chat? && Storable(r, version) && w < |Encode(r, version)| && w != 3
    ensures DecodeChat(Encode(r, version)[..w], printable) == Failed(ErrShortBuffer)
  {
    hide LE16, Get16, LE32, Get32, Text, ChatBody;
    var body, e := ChatBody(r), Encode(r, version);
    var b := e[..w];
    assert |e| == 4 + |body|;
    if w >= 4 {
      assert e[2] == LE16(|body|)[0] && e[3] == LE16(|body|)[1];
      assert b[2..][0] == e[2] && b[2..][1] == e[3];
      SizeField(b[2..], |body|);
    }
  }

  lemma OthersCut(r: Record, d: Decoding, w: nat)
    requires Storable(r, d.version) && !r.Slot? && !r.Chat? && 2 <= w < |Encode(r, d.version)|
    ensures Decode(Encode(r, d.version)[..w], d) == Failed(ErrShortBuffer)
  {
  }

  /** A window onto the front of a record, but not all of it, yields ErrShortBuffer. */
  lemma Cut(r: Record, d: Decoding, w: nat)
    requires Storable(r, d.version) && 4 <= w < |Encode(r, d.version)|
    ensures Decode(Encode(r, d.version)[..w], d) == Failed(ErrShortBuffer)
  {
    hide DecodeSlot, DecodeChat;
    if r.Slot? {
      SlotCut(r.slot, d.version, w);
    } else if r.Chat? {
      ChatCut(r, d.version, w, d.printable);
    } else {
      OthersCut(r, d, w);
    }
  }

  /** The one front of a record that makes Deserialize panic: three bytes of a chat message. */
  lemma CutPanicsIff(r: Record, d: Decoding, w: nat)
    requires Storable(r, d.version) && w < |Encode(r, d.version)|
    ensures Decode(Encode(r, d.version)[..w], d).Panics? <==> r.Chat? && w == 3
  {
    hide DecodeSlot, DecodeChat;
    if r.Slot? {
      SlotCut(r.slot, d.version, w);
    } else if r.Chat? {
      if w != 3 {
        ChatCut(r, d.version, w, d.printable);
      } else {
        ChatOfThree(Encode(r, d.version)[..3], d.printable);
      }
    }
  }

  lemma ChatOfThree(b: Bytes, printable: Bytes -> bool)
    ensures |b| == 3 ==> DecodeChat(b, printable) == Panics
  {
  }

  // ---- Reads past the buffer ----------------------------------------------

  lemma {:induction false} MoreTextReturns(b: Bytes, size: int, text: Bytes, printable: Bytes -> bool)
    ensures !MoreText(b, size, text, printable).Panics?
    decreases size
  {
    if size > 0 && TakeCString(b).Done? {
      MoreTextReturns(TakeCString(b).rest, size - |TakeCString(b).value| - 1, text + TakeCString(b).value, printable);
    }
  }

  lemma TextReturns(b: Bytes, size: int, printable: Bytes -> bool)
    ensures !Text(b, size, printable).Panics?
  {
    if TakeCString(b).Done? {
      MoreTextReturns(TakeCString(b).rest, size - 2 - |TakeCString(b).value|, TakeCString(b).value, printable);
    }
  }

  lemma ChatPanicsIff(b: Bytes, printable: Bytes -> bool)
    ensures DecodeChat(b, printable).Panics? <==> |b| == 3
  {
    hide Text, Get32;
    if |b| > 3 {
      var size := Get16(b[2..]) as int;
      if 2 <= size <= |b| - 4 {
        TextReturns(b[5..], size, printable);
        if size >= 6 {
          TextReturns(b[9..], size - 4, printable);
        }
      }
    }
  }

  lemma SlotPanicsIff(b: Bytes, version: nat)
    ensures DecodeSlot(b, version).Panics? <==>
      |b| >= 5 && 2 <= Get16(b[1..]) as int <= |b| - 3 && Overruns(b[5..], Get16(b[1..]) as int - 2)
  {
    hide DecodeActions;
    if |b| >= 5 && 2 <= Get16(b[1..]) as int <= |b| - 3 {
      ActionsPanicIff(b[5..], Get16(b[1..]) as int - 2);
    }
  }

  /**
   * Deserialize panics exactly on a time slot whose last action overruns the buffer, on three bytes of a chat message,
   * and where the decoder of another type does.
   */
  lemma DecodePanicsIff(b: Bytes, d: Decoding)
    ensures Decode(b, d).Panics? <==>
      && |b| >= 2
      && (|| ((b[0] == RID_TIMESLOT || b[0] == RID_TIMESLOT2) && |b| >= 5
              && 2 <= Get16(b[1..]) as int <= |b| - 3 && Overruns(b[5..], Get16(b[1..]) as int - 2))
          || (b[0] == RID_CHAT_MESSAGE && !Early(d.version) && |b| == 3)
          || (b[0] in OTHER_RIDS && d.others(b).Took? && |b| < 1 + d.others(b).n))
  {
    hide DecodeSlot, DecodeChat, Get16, Get32;
    SlotPanicsIff(b, d.version);
    ChatPanicsIff(b, d.printable);
  }

  /** An action of two bytes in a time slot that ends after its length field. */
  lemma ShortActionPanics(d: Decoding)
    ensures Decode([RID_TIMESLOT, 5, 0, 0, 0, 1, 2, 0], d).Panics?
  {
    var b := [RID_TIMESLOT, 5, 0, 0, 0, 1, 2, 0];
    assert b[1..][0] == 5 && b[1..][1] == 0;
    assert b[5..] == [1, 2, 0];
    assert Get16(b[5..][1..]) == 2;
    assert DecodeActions(b[5..], 3).Panics?;
  }

  // ---- What is left -------------------------------------------------------

  predicate EndOf(rest: Bytes, b: Bytes) {
    |rest| <= |b| && rest == b[|b| - |rest|..]
  }

  lemma EndOfEnd(rest: Bytes, b: Bytes, k: nat)
    requires k <= |b| && EndOf(rest, b[k..])
    ensures EndOf(rest, b) && |rest| <= |b| - k
  {
  }

  lemma {:induction false} ActionsConsume(b: Bytes, size: int)
    ensures var o := DecodeActions(b, size); o.Done? ==> EndOf(o.rest, b)
    decreases size
  {
    if size >= 3 && |b| >= 3 {
      var subsize := Get16(b[1..]) as int;
      if size >= subsize && |b| >= 3 + subsize {
        ActionsConsume(b[3 + subsize..], size - 3 - subsize);
      }
    }
  }

  lemma StringConsumes(b: Bytes)
    ensures var o := TakeCString(b); o.Done? ==> |o.value| < |b| && o.rest == b[|o.value| + 1..]
  {
  }

  lemma {:induction false} MoreTextConsumes(b: Bytes, size: int, text: Bytes, printable: Bytes -> bool)
    ensures var o := MoreText(b, size, text, printable); o.Done? ==> EndOf(o.rest, b)
    decreases size
  {
    hide TakeCString, EndOf;
    EndOfSelf(b);
    var o := MoreText(b, size, text, printable);
    if size > 0 && o.Done? {
      var s := TakeCString(b).value;
      StringConsumes(b);
      MoreTextConsumes(b[|s| + 1..], size - |s| - 1, text + s, printable);
      EndOfEnd(o.rest, b, |s| + 1);
    }
  }

  lemma TextConsumes(b: Bytes, size: int, printable: Bytes -> bool)
    ensures var o := Text(b, size, printable); o.Done? ==> EndOf(o.rest, b)
  {
    hide TakeCString, EndOf, MoreText;
    var o := Text(b, size, printable);
    if o.Done? {
      var s := TakeCString(b).value;
      StringConsumes(b);
      MoreTextConsumes(b[|s| + 1..], size - 2 - |s|, s, printable);
      EndOfEnd(o.rest, b, |s| + 1);
    }
  }

  lemma ChatConsumes(b: Bytes, printable: Bytes -> bool)
    ensures var o := DecodeChat(b, printable); o.Done? ==> EndOf(o.rest, b) && |o.rest| < |b|
  {
    hide Text, EndOf, Get32;
    var o := DecodeChat(b, printable);
    if o.Done? {
      var size := Get16(b[2..]) as int;
      if b[4] == MSG_CHAT_EXTRA {
        TextConsumes(b[9..], size - 4, printable);
        EndOfEnd(o.rest, b, 9);
      } else if b[4] == MSG_CHAT {
        TextConsumes(b[5..], size, printable);
        EndOfEnd(o.rest, b, 5);
      } else {
        EndOfSelf(b[6..]);
        EndOfEnd(o.rest, b, 6);
      }
    }
  }

  lemma EndOfSelf(b: Bytes)
    ensures EndOf(b, b)
  {
  }

  lemma SlotConsumes(b: Bytes, version: nat)
    ensures var o := DecodeSlot(b, version); o.Done? ==> EndOf(o.rest, b) && |o.rest| < |b|
  {
    hide DecodeActions;
    var o := DecodeSlot(b, version);
    if o.Done? {
      ActionsConsume(b[5..], Get16(b[1..]) as int - 2);
      EndOfEnd(o.rest, b, 5);
    }
  }

  lemma OthersConsume(b: Bytes, d: Decoding)
    requires |b| >= 2
    ensures var o := DecodeAck(b); o.Done? ==> EndOf(o.rest, b) && |o.rest| < |b|
    ensures var o := DecodePlayerLeft(b); o.Done? ==> EndOf(o.rest, b) && |o.rest| < |b|
    ensures var o := DecodeEndTimer(b); o.Done? ==> EndOf(o.rest, b) && |o.rest| < |b|
    ensures var o := DecodeOther(b, d.others(b)); o.Done? ==> EndOf(o.rest, b) && |o.rest| < |b|
  {
    hide Get32;
  }

  lemma StartConsumes(b: Bytes, r: Record)
    ensures var o := DecodeStart(b, r); o.Done? ==> EndOf(o.rest, b) && |o.rest| < |b|
  {
    hide Get32;
  }

  /** What a decoder leaves is a proper end of what it was given, for every byte string. */
  lemma DecodeConsumes(b: Bytes, d: Decoding)
    ensures var o := Decode(b, d); o.Done? ==> EndOf(o.rest, b) && |o.rest| < |b|
  {
    hide DecodeChat, DecodeSlot, DecodeAck, DecodePlayerLeft, DecodeEndTimer, DecodeOther, DecodeStart, EndOf;
    if |b| >= 2 {
      ChatConsumes(b, d.printable);
      SlotConsumes(b, d.version);
      OthersConsume(b, d);
      StartConsumes(b, GameStart);
      StartConsumes(b, CountDownStart);
      StartConsumes(b, CountDownEnd);
    }
  }
}
