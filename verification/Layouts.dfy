// The wire formats byte by byte (protocol/w3gs/packets.go and file/w3g/compress.go): where every field is, in numbers.

module Layouts {
  import Blocks
  import GameInfos
  import MessageReuse
  import PacketReuse
  import StatStrings
  import TimeSlots
  import opened Wire

  lemma At16(pre: Bytes, v: UInt16, post: Bytes)
    ensures var b := pre + (LE16(v) + post); U16(b, |pre|) == v && b[..|pre|] == pre && b[|pre| + 2..] == post
  {
  }

  lemma At32(pre: Bytes, v: UInt32, post: Bytes)
    ensures var b := pre + (LE32(v) + post); U32(b, |pre|) == v && b[..|pre|] == pre && b[|pre| + 4..] == post
  {
    hide LE32, Get32;
    var b := pre + (LE32(v) + post);
    assert b[|pre|..] == LE32(v) + post;
    Get32OfLE32(v, post);
    GetIs32(b, |pre|);
  }

  /** A number stays where it is with more in front. */
  lemma Later16(pre: Bytes, b: Bytes, i: nat)
    requires i + 2 <= |b|
    ensures U16(pre + b, |pre| + i) == U16(b, i)
  {
  }

  lemma Later32(pre: Bytes, b: Bytes, i: nat)
    requires i + 4 <= |b|
    ensures U32(pre + b, |pre| + i) == U32(b, i)
  {
  }

  // ---- Turns --------------------------------------------------------------

  lemma TimeSlotLayout(ts: TimeSlots.TimeSlot, crc: TimeSlots.Checksum32)
    requires TimeSlots.Fits(ts)
    ensures var f := TimeSlots.Encode(ts, crc);
      && |f| >= 8 && f[0] == 0xF7 && f[1] == (if ts.fragment then 0x48 else 0x0C) && U16(f, 2) == |f|
      && U16(f, 4) == ts.timeIncrementMS && U16(f, 6) == crc(f[8..]) % 0x1_0000
      && f[8..] == TimeSlots.ActionsBytes(ts.actions)
  {
    hide LE16, TimeSlots.ActionsBytes;
    var f, body := TimeSlots.Encode(ts, crc), TimeSlots.ActionsBytes(ts.actions);
    var id := if ts.fragment then 0x48 else 0x0C;
    var sum := LE16(Lo16(crc(body))) + body;
    var inc := LE16(ts.timeIncrementMS) + sum;
    assert f == [0xF7, id] + (LE16(8 + |body|) + inc);
    At16([0xF7, id], 8 + |body|, inc);
    assert f == f[..4] + inc;
    At16(f[..4], ts.timeIncrementMS, sum);
    assert f == f[..6] + sum;
    At16(f[..6], Lo16(crc(body)), body);
  }

  lemma ActionsLayout(actions: seq<TimeSlots.PlayerAction>)
    requires actions != [] && |actions[0].data| < 0x1_0000
    ensures var b, a := TimeSlots.ActionsBytes(actions), actions[0];
      && |b| >= 3 + |a.data| && b[0] == a.playerID && U16(b, 1) == |a.data| && b[3..3 + |a.data|] == a.data
      && b[3 + |a.data|..] == TimeSlots.ActionsBytes(actions[1..])
  {
    var a, more := actions[0], TimeSlots.ActionsBytes(actions[1..]);
    assert TimeSlots.ActionsBytes(actions) == [a.playerID] + (LE16(|a.data|) + (a.data + more));
    At16([a.playerID], |a.data|, a.data + more);
  }

  /** A turn without actions may leave out the checksum. */
  lemma EmptyTurnIsRead(id: Byte, inc: UInt16, tail: Bytes, crc: TimeSlots.Checksum32)
    ensures TimeSlots.Decode([0xF7, id, 6, 0, inc % 0x100, inc / 0x100] + tail, crc) ==
            Done(TimeSlots.TimeSlot(id == 0x48, inc, []), tail)
  {
    var b := [0xF7, id, 6, 0, inc % 0x100, inc / 0x100] + tail;
    GetIs16(b, 2);
    GetIs16(b, 4);
    assert b[6..] == tail;
  }

  /** Exactly when a turn is refused for its checksum: it is long enough, whole, and the sum of its actions differs. */
  lemma ChecksumRefusedIff(b: Bytes, crc: TimeSlots.Checksum32)
    ensures TimeSlots.Decode(b, crc) == Failed(ErrInvalidChecksum) <==>
            |b| >= 8 && 8 <= U16(b, 2) <= |b| && U16(b, 6) != crc(b[8..U16(b, 2)]) % 0x1_0000
  {
    hide TimeSlots.DecodeActions, Get16, U16;
    if |b| >= 4 {
      GetIs16(b, 2);
      if |b| >= 8 && 8 <= U16(b, 2) <= |b| {
        GetIs16(b, 6);
        TimeSlots.ActionsErr(b[8..], U16(b, 2) - 8);
      }
    }
  }

  // ---- Packets with a header of four bytes --------------------------------

  /** Signature, id and size; the content follows. */
  lemma PacketLayout(id: Byte, content: Bytes)
    requires 4 + |content| < 0x1_0000
    ensures var b := PacketReuse.PacketBytes(id, content);
      |b| == 4 + |content| && b[0] == 0xF7 && b[1] == id && U16(b, 2) == |b| && b[4..] == content
  {
    hide LE16, U16;
    assert PacketReuse.PacketBytes(id, content) == [0xF7, id] + (LE16(4 + |content|) + content);
    At16([0xF7, id], 4 + |content|, content);
  }

  lemma {:induction false} SlotAt(slots: seq<PacketReuse.Slot>, i: nat)
    requires i < |slots|
    ensures var b, s := PacketReuse.SlotsBytes(slots), slots[i];
      && b[9 * i] == s.playerID && b[9 * i + 1] == s.download && b[9 * i + 2] == s.status
      && b[9 * i + 3] == (if s.computer then 1 else 0) && b[9 * i + 4] == s.team && b[9 * i + 5] == s.color
      && b[9 * i + 6] == s.race && b[9 * i + 7] == s.computerType && b[9 * i + 8] == s.handicap
  {
    if i > 0 {
      SlotAt(slots[1..], i - 1);
    }
  }

  function Width(slotSize: int): nat {
    if slotSize >= 9 then 9 else if slotSize == 8 then 8 else 7
  }

  /** The i-th of slots of any width is read from its own bytes. */
  lemma {:induction false} SlotReadFrom(b: Bytes, n: nat, slotSize: int, i: nat)
    requires PacketReuse.DecodeSlots(b, n, slotSize).Done? && i < n
    ensures |PacketReuse.DecodeSlots(b, n, slotSize).value| == n
    ensures var k := Width(slotSize) * i;
      && 0 <= k && k + Width(slotSize) <= |b|
      && PacketReuse.DecodeSlots(b, n, slotSize).value[i] == PacketReuse.DecodeSlot(b[k..], slotSize)
    decreases n
  {
    hide PacketReuse.DecodeSlot;
    var w := Width(slotSize);
    if n > 1 {
      SlotReadFrom(b[w..], n - 1, slotSize, if i > 0 then i - 1 else 0);
    }
    if i > 0 {
      var k := w * (i - 1);
      assert w * i == w + k;
      assert b[w..][k..] == b[w + k..];
    } else {
      assert b[0..] == b;
    }
  }

  /** And what it is read as: seven bytes have no kind of computer, and fewer than nine no handicap. */
  lemma SlotIs(b: Bytes, slotSize: int)
    requires |b| >= Width(slotSize)
    ensures var s, w := PacketReuse.DecodeSlot(b, slotSize), Width(slotSize);
      && s.playerID == b[0] && s.download == b[1] && s.status == b[2] && (s.computer <==> b[3] > 0)
      && s.team == b[4] && s.color == b[5] && s.race == b[6]
      && s.computerType == (if w >= 8 then b[7] else 1) && s.handicap == (if w == 9 then b[8] else 100)
  {
  }

  /** The content of a SlotInfo packet. */
  lemma SlotInfoLayout(si: PacketReuse.SlotInfo)
    requires |si.slots| < 0x100
    ensures var c, n := PacketReuse.SlotInfoBytes(si), |si.slots|;
      && |c| == 9 + 9 * n && U16(c, 0) == 7 + 9 * n && c[2] == n
      && c[3..3 + 9 * n] == PacketReuse.SlotsBytes(si.slots)
      && U32(c, 3 + 9 * n) == si.randomSeed && c[7 + 9 * n] == si.slotLayout && c[8 + 9 * n] == si.numPlayers
  {
    hide LE16, LE32, U16, U32, PacketReuse.SlotsBytes;
    var c, n, slots := PacketReuse.SlotInfoBytes(si), |si.slots|, PacketReuse.SlotsBytes(si.slots);
    var tail := [si.slotLayout, si.numPlayers];
    var back := LE32(si.randomSeed) + tail;
    assert c == [] + (LE16(7 + 9 * n) + ([n] + (slots + back)));
    At16([], 7 + 9 * n, [n] + (slots + back));
    var front := LE16(7 + 9 * n) + [n] + slots;
    assert c == front + back;
    At32(front, si.randomSeed, tail);
    assert c[3..3 + 9 * n] == slots;
  }

  /** The content of a Message packet. */
  lemma MessageLayout(m: MessageReuse.Message)
    requires |m.recipients| < 0x100
    ensures var c, n := MessageReuse.MessageBytes(m), |m.recipients|;
      && |c| >= 4 + n && c[0] == n && c[1..1 + n] == m.recipients && c[1 + n] == m.sender && c[2 + n] == m.kind
      && (m.kind == 0x10 ==> c[3 + n..] == m.content + [0])
      && (m.kind == 0x20 ==> |c| >= 8 + n && U32(c, 3 + n) == m.scope && c[7 + n..] == m.content + [0])
      && (m.kind != 0x10 && m.kind != 0x20 ==> c[3 + n..] == [m.newVal])
  {
    hide LE32, U32;
    var c, n := MessageReuse.MessageBytes(m), |m.recipients|;
    var head := [n] + m.recipients + [m.sender, m.kind];
    assert c == head + MessageReuse.BodyBytes(m);
    assert |head| == 3 + n;
    if m.kind == 0x20 {
      At32(head, m.scope, m.content + [0]);
    }
  }

  lemma {:induction false} LagAt(ps: seq<PacketReuse.LagPlayer>, i: nat)
    requires i < |ps|
    ensures var b := MessageReuse.LagsBytes(ps); b[5 * i] == ps[i].playerID && U32(b, 5 * i + 1) == ps[i].lagMS
  {
    hide LE32, U32;
    var b, more := MessageReuse.LagsBytes(ps), MessageReuse.LagsBytes(ps[1..]);
    assert b == [ps[0].playerID] + (LE32(ps[0].lagMS) + more);
    At32([ps[0].playerID], ps[0].lagMS, more);
    if i > 0 {
      LagAt(ps[1..], i - 1);
      assert b == b[..5] + more;
      Later32(b[..5], more, 5 * (i - 1) + 1);
    }
  }

  /** The content of a Desync packet. */
  lemma DesyncLayout(d: MessageReuse.Desync)
    requires |d.playersInState| < 0x100
    ensures var c := MessageReuse.DesyncBytes(d);
      && |c| == 10 + |d.playersInState| && U32(c, 0) == d.unknown1 && c[4] == 4 && U32(c, 5) == d.checksum
      && c[9] == |d.playersInState| && c[10..] == d.playersInState
  {
    hide LE32, U32;
    DesyncNumbers(d.unknown1, d.checksum, [|d.playersInState|] + d.playersInState);
  }

  lemma DesyncNumbers(u: UInt32, sum: UInt32, back: Bytes)
    ensures var c := LE32(u) + ([4] + (LE32(sum) + back));
      |c| == 9 + |back| && U32(c, 0) == u && c[4] == 4 && U32(c, 5) == sum && c[9..] == back
  {
    hide LE32, U32;
    var c, d, pre := LE32(u) + ([4] + (LE32(sum) + back)), LE32(sum) + back, LE32(u) + [4];
    First32(u, [4] + d);
    First32(sum, back);
    assert c == pre + d;
    Later32(pre, d, 0);
    Ends(c, pre + LE32(sum), back);
  }

  // ---- GameInfo and its settings ------------------------------------------

  lemma PlainLayout(gs: StatStrings.GameSettings)
    requires |gs.mapSha1| == 20
    ensures var b, n := StatStrings.Plain(gs), 13 + |gs.mapPath|;
      var m := n + 1 + |gs.hostName|;
      && |b| == m + 22 && U32(b, 0) == gs.flags && b[4] == 0 && U16(b, 5) == gs.mapWidth && U16(b, 7) == gs.mapHeight
      && U32(b, 9) == gs.mapXoro && b[13..n] == gs.mapPath && b[n] == 0 && b[n + 1..m] == gs.hostName && b[m] == 0
      && b[m + 1] == 0 && b[m + 2..] == gs.mapSha1
  {
    hide LE16, LE32, U16, U32;
    var b := StatStrings.Plain(gs);
    var strings := gs.mapPath + [0] + gs.hostName + [0, 0] + gs.mapSha1;
    NumbersLayout(gs.flags, gs.mapWidth, gs.mapHeight, gs.mapXoro, strings);
    assert b == LE32(gs.flags) + ([0] + (LE16(gs.mapWidth) + (LE16(gs.mapHeight) + (LE32(gs.mapXoro) + strings))));
    assert b[13..] == strings;
    StringsLayout(gs.mapPath, gs.hostName, gs.mapSha1);
    SliceOf(b, 13, 0, |gs.mapPath|);
    SliceOf(b, 13, |gs.mapPath| + 1, |gs.mapPath| + 1 + |gs.hostName|);
    SliceOf(b, 13, |gs.mapPath| + |gs.hostName| + 3, |strings|);
  }

  /** A slice of an end of b, seen from b. */
  lemma SliceOf(b: Bytes, k: nat, i: nat, j: nat)
    requires k + j <= |b| && i <= j
    ensures b[k..][i..j] == b[k + i..k + j]
  {
  }

  lemma NumbersLayout(flags: UInt32, width: UInt16, height: UInt16, xoro: UInt32, strings: Bytes)
    ensures var b := LE32(flags) + ([0] + (LE16(width) + (LE16(height) + (LE32(xoro) + strings))));
      && |b| == 13 + |strings| && U32(b, 0) == flags && b[4] == 0 && U16(b, 5) == width && U16(b, 7) == height
      && U32(b, 9) == xoro && b[13..] == strings
  {
    hide LE16, LE32, U16, U32;
    var x := LE32(xoro) + strings;
    var h := LE16(height) + x;
    var w := LE16(width) + h;
    First32(xoro, strings);
    First16(height, x);
    Later32(LE16(height), x, 0);
    First16(width, h);
    Later16(LE16(width), h, 0);
    Later32(LE16(width), h, 2);
    First32(flags, [0] + w);
    var b, pre := LE32(flags) + ([0] + w), LE32(flags) + [0];
    assert b == pre + w;
    Later16(pre, w, 0);
    Later16(pre, w, 2);
    Later32(pre, w, 4);
    Ends(w, LE16(width) + LE16(height) + LE32(xoro), strings);
    Ends(b, pre + (LE16(width) + LE16(height) + LE32(xoro)), strings);
  }

  lemma First16(v: UInt16, post: Bytes)
    ensures var b := LE16(v) + post; U16(b, 0) == v && |b| == 2 + |post|
  {
  }

  lemma First32(v: UInt32, post: Bytes)
    ensures var b := LE32(v) + post; U32(b, 0) == v && |b| == 4 + |post|
  {
    hide U32;
    At32([], v, post);
    assert [] + (LE32(v) + post) == LE32(v) + post;
  }

  lemma Ends(b: Bytes, pre: Bytes, post: Bytes)
    requires b == pre + post
    ensures b[|pre|..] == post
  {
  }

  lemma StringsLayout(path: Bytes, host: Bytes, sha1: Bytes)
    ensures var c, n := path + [0] + host + [0, 0] + sha1, |path|;
      var m := n + 1 + |host|;
      && |c| == m + 2 + |sha1| && c[0..n] == path && c[n] == 0 && c[n + 1..m] == host && c[m] == 0 && c[m + 1] == 0
      && c[m + 2..|c|] == sha1
  {
  }

  const POWERS: seq<nat> := [1, 2, 4, 8, 16, 32, 64, 128]

  /** Bit j of a byte. */
  function Bit(x: nat, j: nat): (r: nat)
    requires j < 8
    ensures r < 2
  {
    x / POWERS[j] % 2
  }

  /**
   * The code of a statstring: a control byte before every seven bytes, with bit 0 set; its bit j + 1 is set if the j-th
   * of them is odd; and every even one is sent one higher.
   */
  lemma {:induction false} ShiftAt(b: Bytes, i: nat)
    requires i < |b|
    ensures var s, g, j := StatStrings.Shift(b), 8 * (i / 7), 1 + i % 7;
      && g + j < |s| && Bit(s[g], 0) == 1 && Bit(s[g], j) == b[i] as int % 2
      && s[g + j] as int == b[i] as int + 1 - b[i] as int % 2
    decreases |b|
  {
    hide Bit, StatStrings.Group;
    var k := StatStrings.Chunk(b, 7);
    var first, more := StatStrings.Group(b[..k]), StatStrings.Shift(b[k..]);
    GroupAt(b[..k], if i < k then i else 0);
    assert StatStrings.Shift(b) == first + more;
    if i >= 7 {
      ShiftAt(b[7..], i - 7);
      SevenOff(i);
    }
  }

  lemma SevenOff(i: nat)
    requires i >= 7
    ensures 8 * (i / 7) == 8 + 8 * ((i - 7) / 7) && i % 7 == (i - 7) % 7
  {
  }

  lemma GroupAt(g: Bytes, i: nat)
    requires i < |g| <= 7
    ensures var s := StatStrings.Group(g);
      && |s| == 1 + |g| && Bit(s[0], 0) == 1 && Bit(s[0], 1 + i) == g[i] as int % 2
      && s[1 + i] as int == g[i] as int + 1 - g[i] as int % 2
  {
    hide Bit;
    var m, p := StatStrings.Mask(g), StatStrings.Parities(g);
    StatStrings.ParitiesBit(g, i);
    StatStrings.HalfIs(m, p, 1);
    BitIs(m, 0);
    BitIs(m, 1 + i);
  }

  lemma {:induction false} BitIs(x: nat, j: nat)
    requires j < 8
    ensures StatStrings.BitSet(x, j) <==> Bit(x, j) == 1
    decreases j
  {
    if j > 0 {
      BitIs(x / 2, j - 1);
      Halves(x);
    }
  }

  lemma Halves(x: nat)
    ensures x / 2 / 1 == x / 2 && x / 2 / 2 == x / 4 && x / 2 / 4 == x / 8 && x / 2 / 8 == x / 16
    ensures x / 2 / 16 == x / 32 && x / 2 / 32 == x / 64 && x / 2 / 64 == x / 128
  {
  }

  lemma GameInfoLayout(gi: GameInfos.GameInfo)
    requires |gi.settings.mapSha1| == 20 && |GameInfos.EncodeInfo(gi)| < 0x1_0000
    ensures var b, n := GameInfos.EncodeInfo(gi), 20 + |gi.gameName|;
      var m := |b| - 22;
      && b[0] == 0xF7 && b[1] == 0x30 && U16(b, 2) == |b|
      && b[4] as int * 0x100_0000 + b[5] as int * 0x1_0000 + b[6] as int * 0x100 + b[7] as int == gi.product
      && U32(b, 8) == gi.version && U32(b, 12) == gi.hostCounter && U32(b, 16) == gi.entryKey
      && n + 2 <= m && b[20..n] == gi.gameName && b[n] == 0 && b[n + 1] == 0
      && b[n + 2..m] == StatStrings.Encode(gi.settings)
      && U32(b, m) == gi.slotsTotal && U32(b, m + 4) == gi.gameFlags && U32(b, m + 8) == gi.slotsUsed
      && U32(b, m + 12) == gi.slotsAvailable && U32(b, m + 16) == gi.uptimeSec && U16(b, m + 20) == gi.gamePort
  {
    hide GameInfos.EncodeInfo, StatStrings.Encode, U16, U32;
    GameInfos.HeaderIsLength(gi);
    InfoFront(gi);
    InfoNames(gi);
    InfoBack(gi);
    GetIs16(GameInfos.EncodeInfo(gi), 2);
  }

  /** The bytes before the game name. */
  function InfoHead(gi: GameInfos.GameInfo): (b: Bytes)
    ensures |b| == 4
  {
    [0xF7, 0x30] + LE16(Lo16(44 + |gi.gameName| + StatStrings.Size(gi.settings)))
  }

  lemma InfoFront(gi: GameInfos.GameInfo)
    ensures var b := GameInfos.EncodeInfo(gi);
      && |b| >= 20 && b[0] == 0xF7 && b[1] == 0x30
      && b[4] as int * 0x100_0000 + b[5] as int * 0x1_0000 + b[6] as int * 0x100 + b[7] as int == gi.product
      && U32(b, 8) == gi.version && U32(b, 12) == gi.hostCounter && U32(b, 16) == gi.entryKey
  {
    hide LE16, GameInfos.Front, GameInfos.Back, StatStrings.Encode, StatStrings.Size, U32;
    var rest := CString(gi.gameName) + ([0] + (StatStrings.Encode(gi.settings) + GameInfos.Back(gi)));
    assert GameInfos.EncodeInfo(gi) == InfoHead(gi) + (GameInfos.Front(gi) + rest);
    FrontLayout(gi, InfoHead(gi), rest);
  }

  lemma InfoNames(gi: GameInfos.GameInfo)
    ensures var b, n := GameInfos.EncodeInfo(gi), 20 + |gi.gameName|;
      var m := |b| - 22;
      && n + 2 <= m && b[20..n] == gi.gameName && b[n] == 0 && b[n + 1] == 0
      && b[n + 2..m] == StatStrings.Encode(gi.settings)
  {
    hide LE16, GameInfos.Front, GameInfos.Back, StatStrings.Encode, StatStrings.Size;
    var pre, settings, back := InfoHead(gi) + GameInfos.Front(gi), StatStrings.Encode(gi.settings), GameInfos.Back(gi);
    assert GameInfos.EncodeInfo(gi) == pre + (gi.gameName + [0, 0] + settings + back);
    NamesLayout(pre, gi.gameName, settings, back);
  }

  lemma InfoBack(gi: GameInfos.GameInfo)
    ensures var b := GameInfos.EncodeInfo(gi);
      var m := |b| - 22;
      && m >= 0 && U32(b, m) == gi.slotsTotal && U32(b, m + 4) == gi.gameFlags && U32(b, m + 8) == gi.slotsUsed
      && U32(b, m + 12) == gi.slotsAvailable && U32(b, m + 16) == gi.uptimeSec && U16(b, m + 20) == gi.gamePort
  {
    hide LE16, GameInfos.Front, GameInfos.Back, StatStrings.Encode, StatStrings.Size, U32, U16;
    var pre := InfoHead(gi) + (GameInfos.Front(gi) + (CString(gi.gameName) + ([0] + StatStrings.Encode(gi.settings))));
    assert GameInfos.EncodeInfo(gi) == pre + GameInfos.Back(gi);
    BackLayout(gi, pre);
  }

  lemma NamesLayout(pre: Bytes, name: Bytes, settings: Bytes, back: Bytes)
    ensures var b, n := pre + (name + [0, 0] + settings + back), |pre| + |name|;
      && |b| == n + 2 + |settings| + |back| && b[|pre|..n] == name && b[n] == 0 && b[n + 1] == 0
      && b[n + 2..|b| - |back|] == settings
  {
  }

  lemma FrontLayout(gi: GameInfos.GameInfo, pre: Bytes, post: Bytes)
    ensures var b, n := pre + (GameInfos.Front(gi) + post), |pre|;
      && b[n] as int * 0x100_0000 + b[n + 1] as int * 0x1_0000 + b[n + 2] as int * 0x100 + b[n + 3] as int == gi.product
      && U32(b, n + 4) == gi.version && U32(b, n + 8) == gi.hostCounter && U32(b, n + 12) == gi.entryKey
  {
    hide LE32, Get32, GameInfos.Words, GameInfos.GetBE32;
    var c := GameInfos.Front(gi) + post;
    GameInfos.FrontOf(gi, post);
    GetIs32(c, 4);
    GetIs32(c, 8);
    GetIs32(c, 12);
    Later32(pre, c, 4);
    Later32(pre, c, 8);
    Later32(pre, c, 12);
    BigEndian(c);
  }

  lemma BigEndian(b: Bytes)
    requires |b| >= 4
    ensures GameInfos.GetBE32(b) ==
            b[0] as int * 0x100_0000 + b[1] as int * 0x1_0000 + b[2] as int * 0x100 + b[3] as int
  {
    var r := [b[3], b[2], b[1], b[0]];
    GetIs32(r, 0);
    assert r[0..] == r;
  }

  lemma BackLayout(gi: GameInfos.GameInfo, pre: Bytes)
    ensures var b, m := pre + GameInfos.Back(gi), |pre|;
      && U32(b, m) == gi.slotsTotal && U32(b, m + 4) == gi.gameFlags && U32(b, m + 8) == gi.slotsUsed
      && U32(b, m + 12) == gi.slotsAvailable && U32(b, m + 16) == gi.uptimeSec && U16(b, m + 20) == gi.gamePort
  {
    hide LE32, LE16, Get32, Get16, GameInfos.Words, GameInfos.Back, U32, U16;
    var c := GameInfos.Back(gi);
    assert c + [] == c && c[0..] == c;
    GameInfos.BackOf(gi, []);
    GetIs32(c, 0);
    GetIs32(c, 4);
    GetIs32(c, 8);
    GetIs32(c, 12);
    GetIs32(c, 16);
    GetIs16(c, 20);
    Later32(pre, c, 0);
    Later32(pre, c, 4);
    Later32(pre, c, 8);
    Later32(pre, c, 12);
    Later32(pre, c, 16);
    Later16(pre, c, 20);
  }

  // ---- Blocks of a replay -------------------------------------------------

  /** From version 10032 on, and for version 0, sizes have four bytes; before that they have two. */
  lemma BlockLayout(version: nat, z: Blocks.Codec, blk: Blocks.Block)
    ensures var b := Blocks.BlockBytes(version, z, blk);
      && (version == 0 || version >= 10032 ==>
            && |b| == 12 + |blk.packed| && b[12..] == blk.packed
            && U32(b, 0) == |blk.packed| % 0x1_0000_0000 && U32(b, 4) == |blk.data| % 0x1_0000_0000
            && U16(b, 8) == z.sum(b[..8] + [0, 0, 0, 0]) && U16(b, 10) == z.sum(blk.packed))
      && (1 <= version < 10032 ==>
            && |b| == 8 + |blk.packed| && b[8..] == blk.packed
            && U16(b, 0) == |blk.packed| % 0x1_0000 && U16(b, 2) == |blk.data| % 0x1_0000
            && U16(b, 4) == z.sum(b[..4] + [0, 0, 0, 0]) && U16(b, 6) == z.sum(blk.packed))
  {
    hide LE16, LE32, Get16, Get32, Blocks.Sizes, U16, U32;
    var b := Blocks.BlockBytes(version, z, blk);
    assert b + [] == b && b[0..] == b && blk.packed + [] == blk.packed;
    Blocks.HeadRead(version, z, blk, []);
    if version == 0 || version >= 10032 {
      GetIs32(b, 0);
      GetIs32(b, 4);
      GetIs16(b, 8);
      GetIs16(b, 10);
    } else {
      GetIs16(b, 0);
      GetIs16(b, 2);
      GetIs16(b, 4);
      GetIs16(b, 6);
    }
  }
}
