// Message, StartLag and Desync packets (protocol/w3gs/packets.go), decoded over their old contents.

module MessageReuse {
  import opened PacketReuse
  import opened Wire

  // ---- Message ------------------------------------------------------------

  const MSG_CHAT: Byte := 0x10
  const MSG_CHAT_EXTRA: Byte := 0x20

  datatype Message = Message(recipients: Bytes, sender: Byte, kind: Byte, scope: UInt32, newVal: Byte, content: Bytes)

  function MessageBytes(m: Message): Bytes {
    [|m.recipients| % 0x100] + (m.recipients + ([m.sender, m.kind] + BodyBytes(m)))
  }

  /** The message without the fields that its kind does not send. */
  function Sent(m: Message): Message {
    if m.kind == MSG_CHAT_EXTRA then m.(newVal := 0)
    else if m.kind == MSG_CHAT then m.(newVal := 0, scope := 0)
    else m.(scope := 0, content := [])
  }

  /** The text, which has to end where the packet ends. */
  function WithText(m: Message, b: Bytes, size: int): Outcome<Message> {
    match TakeCString(b)
    case Done(s, rest) =>
      if size != 8 + |m.recipients| + |s| then Failed(ErrInvalidPacketSize) else Done(m.(content := s), rest)
    case Failed(err) => Failed(err)
    case Panics => Panics
  }

  /** What follows the kind of a message. */
  function DecodeBody(m: Message, b: Bytes, size: int): (o: Outcome<Message>)
    requires size - 7 - |m.recipients| <= |b|
    ensures !o.Panics?
  {
    var n := |m.recipients|;
    if m.kind == MSG_CHAT_EXTRA then
      if size < 12 + n then Failed(ErrInvalidPacketSize) else WithText(m.(scope := Get32(b)), b[4..], size - 4)
    else if m.kind == MSG_CHAT then WithText(m, b, size)
    else if size != 8 + n then Failed(ErrInvalidPacketSize)
    else Done(m.(newVal := b[0]), b[1..])
  }

  /** What follows the header. */
  function MessageContent(c: Bytes, size: int): (o: Outcome<Message>)
    requires 8 <= size <= 4 + |c|
    ensures !o.Panics?
  {
    var n := c[0] as int;
    if size < 8 + n then Failed(ErrInvalidPacketSize)
    else DecodeBody(Message(c[1..1 + n], c[1 + n], c[2 + n], 0, 0, []), c[3 + n..], size)
  }

  function DecodeMessage(b: Bytes): (o: Outcome<Message>)
    ensures !o.Panics?
  {
    if PacketSize(b) < 8 then Failed(ErrInvalidPacketSize) else MessageContent(b[4..], PacketSize(b))
  }

  function BodyBytes(m: Message): Bytes {
    if m.kind == MSG_CHAT_EXTRA then LE32(m.scope) + CString(m.content)
    else if m.kind == MSG_CHAT then CString(m.content)
    else [m.newVal]
  }

  lemma BodyHolds(m: Message)
    ensures |BodyBytes(m)| > 0
  {
  }

  lemma BodyOf(m: Message, part: Message, tail: Bytes, size: int)
    requires NulFree(m.content) && part == m.(scope := 0, newVal := 0, content := [])
    requires size == 7 + |m.recipients| + |BodyBytes(m)|
    ensures DecodeBody(part, BodyBytes(m) + tail, size) == Done(Sent(m), tail)
  {
    hide LE32, Get32, TakeCString;
    TakeCStringOf(m.content, tail);
    if m.kind == MSG_CHAT_EXTRA {
      assert BodyBytes(m) + tail == LE32(m.scope) + (CString(m.content) + tail);
      Get32OfLE32(m.scope, CString(m.content) + tail);
    }
  }

  lemma MessageContentOf(m: Message, tail: Bytes)
    requires NulFree(m.content) && |m.recipients| < 0x100
    ensures MessageContent(MessageBytes(m) + tail, 4 + |MessageBytes(m)|) == Done(Sent(m), tail)
  {
    hide BodyBytes, DecodeBody;
    var n, c := |m.recipients|, MessageBytes(m) + tail;
    assert c[1..1 + n] == m.recipients;
    assert c[3 + n..] == BodyBytes(m) + tail;
    BodyHolds(m);
    BodyOf(m, Message(m.recipients, m.sender, m.kind, 0, 0, []), tail, 4 + |MessageBytes(m)|);
  }

  /** A message with NUL-free text that fits its size field is read back, whatever follows it. */
  lemma MessageRoundTrip(m: Message, tail: Bytes)
    requires NulFree(m.content) && |m.recipients| < 0x100 && 4 + |MessageBytes(m)| < 0x1_0000
    ensures DecodeMessage(PacketBytes(0x28, MessageBytes(m)) + tail) == Done(Sent(m), tail)
  {
    hide PacketSize, PacketBytes, BodyBytes, MessageContent;
    PacketOf(0x28, MessageBytes(m), tail);
    BodyHolds(m);
    MessageContentOf(m, tail);
  }

  class MessagePacket {
    var recipients: Bytes
    var sender: Byte
    var kind: Byte
    var scope: UInt32
    var newVal: Byte
    var content: Bytes

    ghost function View(): Message
      reads this
    {
      Message(recipients, sender, kind, scope, newVal, content)
    }

    /** Message.Deserialize: whatever the struct held, it now holds what the bytes say. */
    method Deserialize(buf: Buffer) returns (err: Result)
      modifies this, buf
      ensures DecodeMessage(old(buf.bytes)) == Answer(err, View(), buf.bytes)
    {
      hide PacketSize, DecodeBody;
      PacketSizeWithin(buf.bytes);
      var size := ReadPacketSize(buf);
      if size < 8 {
        return Err(ErrInvalidPacketSize);
      }
      ghost var c := buf.bytes;
      var n: int := buf.ReadUInt8();
      if size < 8 + n {
        return Err(ErrInvalidPacketSize);
      }
      SliceAt(c, 1, n);
      recipients := buf.ReadBlob(n);
      SliceAt(c, 1 + n, 2);
      sender := buf.ReadUInt8();
      kind := buf.ReadUInt8();
      assert buf.bytes == c[3 + n..];
      scope, newVal, content := 0, 0, [];
      err := ReadBody(buf, size);
    }

    /** The rest of Deserialize, after the kind. */
    method ReadBody(buf: Buffer, size: int) returns (err: Result)
      requires View() == Message(recipients, sender, kind, 0, 0, [])
      requires 8 + |recipients| <= size <= 7 + |recipients| + |buf.bytes|
      modifies this, buf
      ensures DecodeBody(old(View()), old(buf.bytes), size) ==
              Answer(err, View(), buf.bytes)
    {
      hide Get32, TakeCString;
      var n := |recipients|;
      if kind == MSG_CHAT_EXTRA || kind == MSG_CHAT {
        var left := size;
        if kind == MSG_CHAT_EXTRA {
          if left < 12 + n {
            return Err(ErrInvalidPacketSize);
          }
          left := left - 4;
          scope := buf.ReadUInt32();
        }
        var ok;
        content, ok := buf.ReadCString();
        if !ok {
          return Err(ErrNoCStringTerminatorFound);
        }
        if left != 8 + n + |content| {
          return Err(ErrInvalidPacketSize);
        }
      } else {
        if size != 8 + n {
          return Err(ErrInvalidPacketSize);
        }
        newVal := buf.ReadUInt8();
      }
      return OK;
    }
  }

  lemma PacketSizeWithin(b: Bytes)
    ensures -1 <= PacketSize(b) <= |b| && PacketSize(b) < 0x1_0000
  {
  }

  // ---- StartLag -----------------------------------------------------------

  function LagBytes(p: LagPlayer): (b: Bytes)
    ensures |b| == 5
  {
    [p.playerID] + LE32(p.lagMS)
  }

  function LagsBytes(ps: seq<LagPlayer>): (b: Bytes)
    ensures |b| == 5 * |ps|
  {
    if ps == [] then [] else LagBytes(ps[0]) + LagsBytes(ps[1..])
  }

  function DecodeLags(b: Bytes, n: nat): (ps: seq<LagPlayer>)
    requires |b| >= 5 * n
    ensures |ps| == n
  {
    if n == 0 then [] else [LagPlayer(b[0], Get32(b[1..]))] + DecodeLags(b[5..], n - 1)
  }

  /** What follows the header. */
  function LagContent(c: Bytes, size: int): (o: Outcome<seq<LagPlayer>>)
    requires 5 <= size <= 4 + |c|
    ensures !o.Panics?
  {
    var n := c[0] as int;
    if size != 5 + n * 5 then Failed(ErrInvalidPacketSize) else Done(DecodeLags(c[1..], n), c[1..][n * 5..])
  }

  function DecodeStartLag(b: Bytes): (o: Outcome<seq<LagPlayer>>)
    ensures !o.Panics?
  {
    if PacketSize(b) < 5 then Failed(ErrInvalidPacketSize) else LagContent(b[4..], PacketSize(b))
  }

  lemma LagAt(p: LagPlayer, tail: Bytes)
    ensures var b := LagBytes(p) + tail; b[0] == p.playerID && Get32(b[1..]) == p.lagMS && b[5..] == tail
  {
    hide LE32, Get32;
    var b := LagBytes(p) + tail;
    assert b[1..] == LE32(p.lagMS) + tail;
    Get32OfLE32(p.lagMS, tail);
  }

  lemma {:induction false} DecodeLagsOf(ps: seq<LagPlayer>, tail: Bytes)
    ensures DecodeLags(LagsBytes(ps) + tail, |ps|) == ps
    decreases |ps|
  {
    hide LagBytes, Get32;
    if ps != [] {
      var more := LagsBytes(ps[1..]) + tail;
      assert LagsBytes(ps) + tail == LagBytes(ps[0]) + more;
      LagAt(ps[0], more);
      DecodeLagsOf(ps[1..], tail);
    }
  }

  lemma LagContentOf(ps: seq<LagPlayer>, tail: Bytes)
    requires |ps| < 0x100
    ensures LagContent([|ps|] + LagsBytes(ps) + tail, 5 + |ps| * 5) == Done(ps, tail)
  {
    hide DecodeLags, LagsBytes, LagContent;
    LagContentIs(|ps|, LagsBytes(ps), tail);
    DecodeLagsOf(ps, tail);
  }

  lemma LagContentIs(n: Byte, lags: Bytes, tail: Bytes)
    requires |lags| == 5 * n as int
    ensures LagContent([n] + lags + tail, 5 + 5 * n as int) == Done(DecodeLags(lags + tail, n), tail)
  {
    hide DecodeLags;
    var c := [n] + lags + tail;
    assert c[1..] == lags + tail;
    assert (lags + tail)[5 * n as int..] == tail;
  }

  /** A lag list of up to 255 players is read back whole, whatever follows it. */
  lemma StartLagRoundTrip(ps: seq<LagPlayer>, tail: Bytes)
    requires |ps| < 0x100
    ensures DecodeStartLag(PacketBytes(0x10, [|ps|] + LagsBytes(ps)) + tail) == Done(ps, tail)
  {
    hide PacketSize, PacketBytes, LagsBytes, LagContent;
    PacketOf(0x10, [|ps|] + LagsBytes(ps), tail);
    LagContentOf(ps, tail);
  }

  class StartLagPacket {
    var backing: seq<LagPlayer>
    var len: nat

    /** StartLag.Deserialize: whatever the struct held, it now holds what the bytes say. */
    method Deserialize(buf: Buffer) returns (err: Result)
      requires len <= |backing|
      modifies this, buf
      ensures len <= |backing|
      ensures DecodeStartLag(old(buf.bytes)) == Answer(err, backing[..len], buf.bytes)
    {
      hide PacketSize, DecodeLags;
      PacketSizeWithin(buf.bytes);
      var size := ReadPacketSize(buf);
      if size < 5 {
        return Err(ErrInvalidPacketSize);
      }
      var n: int := buf.ReadUInt8();
      if size != 5 + n * 5 {
        return Err(ErrInvalidPacketSize);
      }
      if |backing| < n {
        backing := seq(n, _ => LagPlayer(0, 0));
      }
      len := n;
      ReadLags(buf);
      return OK;
    }

    method ReadLags(buf: Buffer)
      requires len <= |backing| && |buf.bytes| >= 5 * len
      modifies this`backing, buf
      ensures len <= |backing| && backing[..len] == DecodeLags(old(buf.bytes), len)
      ensures buf.bytes == old(buf.bytes)[5 * len..]
    {
      hide Get32;
      ghost var b := buf.bytes;
      assert b[0..] == b;
      for i := 0 to len
        invariant len <= |backing| && |buf.bytes| == |b| - 5 * i && buf.bytes == b[5 * i..]
        invariant DecodeLags(b, len) == backing[..i] + DecodeLags(buf.bytes, len - i)
      {
        ghost var c, before := buf.bytes, backing[..i];
        var id := buf.ReadUInt8();
        backing := backing[i := backing[i].(playerID := id)];
        var ms := buf.ReadUInt32();
        backing := backing[i := backing[i].(lagMS := ms)];
        assert buf.bytes == c[5..] == b[5 * (i + 1)..];
        assert backing[..i + 1] == before + [LagPlayer(c[0], Get32(c[1..]))];
      }
      assert backing[..len] + [] == backing[..len];
    }
  }

  // ---- Desync -------------------------------------------------------------

  datatype Desync = Desync(unknown1: UInt32, checksum: UInt32, playersInState: Bytes)

  function DesyncBytes(d: Desync): Bytes {
    LE32(d.unknown1) + ([4] + (LE32(d.checksum) + ([|d.playersInState| % 0x100] + d.playersInState)))
  }

  /** What follows the header. */
  function DesyncContent(c: Bytes, size: int): (o: Outcome<Desync>)
    requires 14 <= size <= 4 + |c|
    ensures !o.Panics?
  {
    if c[4] != 4 then Failed(ErrUnexpectedConst)
    else
      var n, rest := c[9] as int, c[10..];
      if |rest| < n || size != 14 + n then Failed(ErrInvalidPacketSize)
      else Done(Desync(Get32(c), Get32(c[5..]), rest[..n]), rest[n..])
  }

  function DecodeDesync(b: Bytes): (o: Outcome<Desync>)
    ensures !o.Panics?
  {
    if PacketSize(b) < 14 then Failed(ErrInvalidPacketSize) else DesyncContent(b[4..], PacketSize(b))
  }

  lemma DesyncContentOf(d: Desync, tail: Bytes)
    requires |d.playersInState| < 0x100
    ensures DesyncContent(DesyncBytes(d) + tail, 4 + |DesyncBytes(d)|) == Done(d, tail)
  {
    hide LE32, Get32;
    var n, c := |d.playersInState|, DesyncBytes(d) + tail;
    var back := [n] + (d.playersInState + tail);
    assert c == LE32(d.unknown1) + ([4] + (LE32(d.checksum) + back));
    Get32OfLE32(d.unknown1, [4] + (LE32(d.checksum) + back));
    assert c[5..] == LE32(d.checksum) + back;
    Get32OfLE32(d.checksum, back);
    assert c[9..] == back;
    assert c[10..] == d.playersInState + tail;
  }

  /** A desync report on up to 255 players is read back whole, whatever follows it. */
  lemma DesyncRoundTrip(d: Desync, tail: Bytes)
    requires |d.playersInState| < 0x100
    ensures DecodeDesync(PacketBytes(0x0D, DesyncBytes(d)) + tail) == Done(d, tail)
  {
    hide PacketSize, PacketBytes, LE32, DesyncContent;
    PacketOf(0x0D, DesyncBytes(d), tail);
    DesyncContentOf(d, tail);
  }

  class DesyncPacket {
    var unknown1: UInt32
    var checksum: UInt32
    var playersInState: Bytes

    /** Desync.Deserialize: whatever the struct held, it now holds what the bytes say. */
    method Deserialize(buf: Buffer) returns (err: Result)
      modifies this, buf
      ensures DecodeDesync(old(buf.bytes)) ==
              Answer(err, Desync(unknown1, checksum, playersInState), buf.bytes)
    {
      hide PacketSize, Get32;
      PacketSizeWithin(buf.bytes);
      var size := ReadPacketSize(buf);
      if size < 14 {
        return Err(ErrInvalidPacketSize);
      }
      ghost var c := buf.bytes;
      unknown1 := buf.ReadUInt32();
      var four := buf.ReadUInt8();
      if four != 4 {
        return Err(ErrUnexpectedConst);
      }
      assert buf.bytes == c[5..];
      checksum := buf.ReadUInt32();
      assert buf.bytes == c[9..];
      var n: int := buf.ReadUInt8();
      assert buf.bytes == c[10..];
      if |buf.bytes| < n {
        return Err(ErrInvalidPacketSize);
      }
      playersInState := buf.ReadBlob(n);
      if size != 14 + |playersInState| {
        return Err(ErrInvalidPacketSize);
      }
      return OK;
    }
  }
}
