// The TimeSlot packet (protocol/w3gs/packets.go): its wire form and the decoder that reuses a packet.

module TimeSlots {
  import opened Wire

  const PROTOCOL_SIG: Byte := 0xF7
  const PID_INCOMING_ACTION: Byte := 0x0C
  const PID_INCOMING_ACTION2: Byte := 0x48

  datatype PlayerAction = PlayerAction(playerID: Byte, data: Bytes)

  datatype TimeSlot = TimeSlot(fragment: bool, timeIncrementMS: UInt16, actions: seq<PlayerAction>)

  /** hash/crc32, of which only the low 16 bits are sent. */
  type Checksum32 = Bytes -> UInt32

  // ---- Wire form ----------------------------------------------------------

  function ActionBytes(a: PlayerAction): Bytes {
    [a.playerID] + LE16(Lo16(|a.data|)) + a.data
  }

  function ActionsBytes(actions: seq<PlayerAction>): Bytes {
    if actions == [] then [] else ActionBytes(actions[0]) + ActionsBytes(actions[1..])
  }

  function Pid(fragment: bool): Byte {
    if fragment then PID_INCOMING_ACTION2 else PID_INCOMING_ACTION
  }

  function Encode(ts: TimeSlot, crc: Checksum32): Bytes {
    var body := ActionsBytes(ts.actions);
    [PROTOCOL_SIG, Pid(ts.fragment)] + LE16(Lo16(8 + |body|)) + LE16(ts.timeIncrementMS) + LE16(Lo16(crc(body))) + body
  }

  // ---- What Deserialize makes of any bytes --------------------------------

  /** The loop over the actions; `size` counts down the bytes of the packet. */
  function DecodeActions(b: Bytes, size: int): Outcome<seq<PlayerAction>>
    decreases size
  {
    if size < 3 then
      if size != 0 then Failed(ErrInvalidPacketSize) else Done([], b)
    else if |b| < 3 then
      Panics
    else
      var subsize := Get16(b[1..]) as int;
      if size < subsize then
        Failed(ErrInvalidPacketSize)
      else if |b| < 3 + subsize then
        Panics
      else
        After([PlayerAction(b[0], b[3..3 + subsize])], DecodeActions(b[3 + subsize..], size - 3 - subsize))
  }

  /** The actions read so far, followed by what the rest decodes to. */
  function After(actions: seq<PlayerAction>, rest: Outcome<seq<PlayerAction>>): Outcome<seq<PlayerAction>> {
    match rest
    case Done(more, tail) => Done(actions + more, tail)
    case Failed(err) => Failed(err)
    case Panics => Panics
  }

  lemma AfterNothing(o: Outcome<seq<PlayerAction>>)
    ensures After([], o) == o
  {
    assert o.Done? ==> [] + o.value == o.value;
  }

  lemma AfterAgain(actions: seq<PlayerAction>, more: seq<PlayerAction>, o: Outcome<seq<PlayerAction>>)
    ensures After(actions, After(more, o)) == After(actions + more, o)
  {
    assert o.Done? ==> actions + (more + o.value) == actions + more + o.value;
  }

  function Decode(b: Bytes, crc: Checksum32): Outcome<TimeSlot> {
    if |b| < 4 || Get16(b[2..]) as int > |b| || Get16(b[2..]) < 6 then
      Failed(ErrInvalidPacketSize)
    else
      var size := Get16(b[2..]) as int;
      var fragment := b[1] == PID_INCOMING_ACTION2;
      var inc := Get16(b[4..]);
      if size == 6 then
        Done(TimeSlot(fragment, inc, []), b[6..])
      else if size < 8 then
        Failed(ErrInvalidPacketSize)
      else if Get16(b[6..]) != Lo16(crc(b[8..size])) then
        Failed(ErrInvalidChecksum)
      else
        match DecodeActions(b[8..], size - 8)
        case Done(actions, rest) => Done(TimeSlot(fragment, inc, actions), rest)
        case Failed(err) => Failed(err)
        case Panics => Panics
  }

  /** Actions fail for one reason only. */
  lemma {:induction false} ActionsErr(b: Bytes, size: int)
    ensures DecodeActions(b, size).Failed? ==>
            DecodeActions(b, size) == Failed(ErrInvalidPacketSize)
    decreases size
  {
    if size >= 3 && |b| >= 3 {
      var subsize := Get16(b[1..]) as int;
      if size >= subsize && |b| >= 3 + subsize {
        ActionsErr(b[3 + subsize..], size - 3 - subsize);
      }
    }
  }

  // ---- Round trip ---------------------------------------------------------

  predicate Fits(ts: TimeSlot) {
    8 + |ActionsBytes(ts.actions)| < 0x1_0000
  }

  lemma {:induction false} DecodeActionsOf(actions: seq<PlayerAction>, tail: Bytes)
    requires |ActionsBytes(actions)| < 0x1_0000
    ensures DecodeActions(ActionsBytes(actions) + tail, |ActionsBytes(actions)|) == Done(actions, tail)
    decreases |actions|
  {
    if actions == [] {
      assert ActionsBytes(actions) + tail == tail;
    } else {
      ActionLayout(actions[0], ActionsBytes(actions[1..]) + tail);
      var b := ActionsBytes(actions) + tail;
      assert b == ActionBytes(actions[0]) + (ActionsBytes(actions[1..]) + tail);
      assert actions == [actions[0]] + actions[1..];
      DecodeActionsOf(actions[1..], tail);
    }
  }

  lemma ActionLayout(a: PlayerAction, tail: Bytes)
    requires |a.data| < 0x1_0000
    ensures var b := ActionBytes(a) + tail;
      && b[0] == a.playerID && Get16(b[1..]) == |a.data|
      && b[3..3 + |a.data|] == a.data && b[3 + |a.data|..] == tail
  {
    var b := ActionBytes(a) + tail;
    assert b[1..] == LE16(|a.data|) + (a.data + tail);
    Get16OfLE16(|a.data|, a.data + tail);
  }

  /** A TimeSlot that fits its 16-bit size field is read back whole, whatever follows it. */
  lemma RoundTrip(ts: TimeSlot, tail: Bytes, crc: Checksum32)
    requires Fits(ts)
    ensures Decode(Encode(ts, crc) + tail, crc) == Done(ts, tail)
  {
    var body := ActionsBytes(ts.actions);
    var b := Encode(ts, crc) + tail;
    var sum := LE16(Lo16(crc(body))) + (body + tail);
    assert b[2..] == LE16(8 + |body|) + (LE16(ts.timeIncrementMS) + sum);
    Get16OfLE16(8 + |body|, LE16(ts.timeIncrementMS) + sum);
    assert b[4..] == LE16(ts.timeIncrementMS) + sum;
    Get16OfLE16(ts.timeIncrementMS, sum);
    assert b[6..] == sum;
    Get16OfLE16(Lo16(crc(body)), body + tail);
    assert b[8..] == body + tail;
    assert b[8..8 + |body|] == body;
    DecodeActionsOf(ts.actions, tail);
  }

  // ---- Reads past the buffer ----------------------------------------------

  predicate ShortData(actions: seq<PlayerAction>) {
    forall i | 0 <= i < |actions| :: |actions[i].data| < 0x1_0000
  }

  /**
   * After whole actions comes one whose length field passes the guard, which forgets the three bytes before the data,
   * and is more than the buffer has.
   */
  predicate OverrunsAfter(actions: seq<PlayerAction>, b: Bytes, size: int) {
    var k := |ActionsBytes(actions)|;
    && ShortData(actions)
    && k + 3 <= size && k + 3 <= |b| && b[..k] == ActionsBytes(actions)
    && Get16(b[k + 1..]) as int <= size - k && |b| < k + 3 + Get16(b[k + 1..]) as int
  }

  ghost predicate Overruns(b: Bytes, size: int) {
    exists actions :: OverrunsAfter(actions, b, size)
  }

  lemma {:induction false} OverrunFound(b: Bytes, size: int) returns (actions: seq<PlayerAction>)
    requires size <= |b| && DecodeActions(b, size).Panics?
    ensures OverrunsAfter(actions, b, size)
    decreases size
  {
    var n := Get16(b[1..]) as int;
    if |b| < 3 + n {
      actions := [];
    } else {
      var more := OverrunFound(b[3 + n..], size - 3 - n);
      var a := PlayerAction(b[0], b[3..3 + n]);
      actions := [a] + more;
      HeadBytes(b, n);
      OverrunBehind(a, more, b, size);
    }
  }

  lemma HeadBytes(b: Bytes, n: nat)
    requires |b| >= 3 + n && n == Get16(b[1..])
    ensures ActionBytes(PlayerAction(b[0], b[3..3 + n])) == b[..3 + n]
  {
    hide LE16, Get16;
    LE16OfGet16(b[1..]);
    assert b[1..][..2] == b[1..3];
    assert b[..3 + n] == [b[0]] + b[1..3] + b[3..3 + n];
  }

  /** An overrun seen from one action earlier. */
  lemma OverrunBehind(a: PlayerAction, more: seq<PlayerAction>, b: Bytes, size: int)
    requires |a.data| < 0x1_0000 && ActionBytes(a) <= b
    ensures OverrunsAfter(more, b[3 + |a.data|..], size - 3 - |a.data|) <==> OverrunsAfter([a] + more, b, size)
  {
    hide Get16, LE16, ShortData;
    var n, k := 3 + |a.data|, |ActionsBytes(more)|;
    var actions := [a] + more;
    assert actions[0] == a && actions[1..] == more;
    assert |ActionBytes(a)| == n && ActionsBytes(actions) == ActionBytes(a) + ActionsBytes(more);
    ShortBehind(a, more);
    if n + k + 3 <= |b| {
      assert b[n..][k + 1..] == b[n + k + 1..];
      assert b[..n] == ActionBytes(a);
      FrontBehind(b, n, ActionBytes(a), ActionsBytes(more));
    }
  }

  lemma ShortBehind(a: PlayerAction, more: seq<PlayerAction>)
    requires |a.data| < 0x1_0000
    ensures ShortData([a] + more) <==> ShortData(more)
  {
    var actions := [a] + more;
    if ShortData(actions) {
      forall i | 0 <= i < |more|
        ensures |more[i].data| < 0x1_0000
      {
        assert actions[i + 1] == more[i];
      }
    }
  }

  lemma FrontBehind(b: Bytes, n: nat, front: Bytes, more: Bytes)
    requires n + |more| <= |b| && b[..n] == front
    ensures b[..n + |more|] == front + more <==> b[n..][..|more|] == more
  {
    assert b[..n + |more|] == b[..n] + b[n..][..|more|];
    if b[..n + |more|] == front + more {
      assert b[n..][..|more|] == b[..n + |more|][n..] == more;
    }
  }

  lemma {:induction false} OverrunPanics(actions: seq<PlayerAction>, b: Bytes, size: int)
    requires OverrunsAfter(actions, b, size)
    ensures DecodeActions(b, size).Panics?
    decreases |actions|
  {
    if actions != [] {
      var a, n := actions[0], 3 + |actions[0].data|;
      assert ActionsBytes(actions) == ActionBytes(a) + ActionsBytes(actions[1..]);
      assert ActionBytes(a) == b[..n];
      assert b == ActionBytes(a) + b[n..];
      ActionLayout(a, b[n..]);
      assert actions == [a] + actions[1..];
      OverrunBehind(a, actions[1..], b, size);
      OverrunPanics(actions[1..], b[n..], size - n);
    }
  }

  lemma ActionsPanicIff(b: Bytes, size: int)
    requires size <= |b|
    ensures DecodeActions(b, size).Panics? <==> Overruns(b, size)
  {
    if DecodeActions(b, size).Panics? {
      var actions := OverrunFound(b, size);
    } else if actions :| OverrunsAfter(actions, b, size) {
      OverrunPanics(actions, b, size);
    }
  }

  /** Deserialize panics exactly on a packet with the right checksum in which such an action comes last. */
  lemma DecodePanicsIff(b: Bytes, crc: Checksum32)
    ensures Decode(b, crc).Panics? <==>
      && |b| >= 8 && 8 <= Get16(b[2..]) as int <= |b|
      && var size := Get16(b[2..]) as int;
         && Get16(b[6..]) == Lo16(crc(b[8..size]))
         && Overruns(b[8..], size - 8)
  {
    hide DecodeActions;
    if |b| >= 8 && 8 <= Get16(b[2..]) as int <= |b| {
      ActionsPanicIff(b[8..], Get16(b[2..]) as int - 8);
    }
  }

  /** An action of two bytes in a packet that ends after its length field. */
  lemma ShortActionPanics(crc: Checksum32)
    ensures Decode([PROTOCOL_SIG, PID_INCOMING_ACTION, 11, 0, 0, 0] + LE16(Lo16(crc([1, 2, 0]))) + [1, 2, 0], crc).Panics?
  {
    var sum := LE16(Lo16(crc([1, 2, 0])));
    var b := [PROTOCOL_SIG, PID_INCOMING_ACTION, 11, 0, 0, 0] + sum + [1, 2, 0];
    assert b[2..][0] == 11 && b[2..][1] == 0;
    assert b[6..] == sum + [1, 2, 0];
    Get16OfLE16(Lo16(crc([1, 2, 0])), [1, 2, 0]);
    assert b[8..] == b[8..11] == [1, 2, 0];
    assert Get16(b[8..][1..]) == 2;
  }

  // ---- Serialize and Deserialize ------------------------------------------

  lemma {:induction false} ActionsBytesAppend(actions: seq<PlayerAction>, more: seq<PlayerAction>)
    ensures ActionsBytes(actions + more) == ActionsBytes(actions) + ActionsBytes(more)
    decreases |actions|
  {
    if actions == [] {
      assert actions + more == more;
    } else {
      assert (actions + more)[1..] == actions[1..] + more;
      ActionsBytesAppend(actions[1..], more);
    }
  }

  lemma ActionsBytesNext(actions: seq<PlayerAction>, i: nat)
    requires i < |actions|
    ensures ActionsBytes(actions[..i + 1]) == ActionsBytes(actions[..i]) + ActionBytes(actions[i])
  {
    assert actions[..i + 1] == actions[..i] + [actions[i]];
    ActionsBytesAppend(actions[..i], [actions[i]]);
    assert ActionsBytes([actions[i]]) == ActionBytes(actions[i]) + ActionsBytes([]);
  }

  /** The bytes before the actions, with or without the size and the checksum filled in. */
  function Head(ts: TimeSlot, size: UInt16, sum: UInt16): (b: Bytes)
    ensures |b| == 8
  {
    [PROTOCOL_SIG, Pid(ts.fragment)] + LE16(size) + LE16(ts.timeIncrementMS) + LE16(sum)
  }

  method WriteHead(ts: TimeSlot, buf: Buffer)
    modifies buf
    ensures buf.bytes == old(buf.bytes) + Head(ts, 0, 0)
  {
    buf.WriteUInt8(PROTOCOL_SIG);
    buf.WriteUInt8(if ts.fragment then PID_INCOMING_ACTION2 else PID_INCOMING_ACTION);
    buf.WriteUInt16(0);
    buf.WriteUInt16(ts.timeIncrementMS);
    buf.WriteUInt16(0);
    assert buf.bytes == old(buf.bytes) + ([PROTOCOL_SIG, Pid(ts.fragment)] + LE16(0) + LE16(ts.timeIncrementMS) + LE16(0));
  }

  method WriteActions(actions: seq<PlayerAction>, buf: Buffer)
    modifies buf
    ensures buf.bytes == old(buf.bytes) + ActionsBytes(actions)
  {
    for i := 0 to |actions|
      invariant buf.bytes == old(buf.bytes) + ActionsBytes(actions[..i])
    {
      ActionsBytesNext(actions, i);
      buf.WriteUInt8(actions[i].playerID);
      buf.WriteUInt16(Lo16(|actions[i].data|));
      buf.WriteBlob(actions[i].data);
    }
    assert actions[..|actions|] == actions;
  }

  lemma PatchSize(pre: Bytes, ts: TimeSlot, size: UInt16, body: Bytes)
    ensures var b := pre + Head(ts, 0, 0) + body;
      b[..|pre| + 2] + LE16(size) + b[|pre| + 4..] == pre + Head(ts, size, 0) + body
  {
    var b := pre + Head(ts, 0, 0) + body;
    assert b[..|pre| + 2] == pre + [PROTOCOL_SIG, Pid(ts.fragment)];
    assert b[|pre| + 4..] == LE16(ts.timeIncrementMS) + LE16(0) + body;
  }

  lemma PatchSum(pre: Bytes, ts: TimeSlot, size: UInt16, sum: UInt16, body: Bytes)
    ensures var b := pre + Head(ts, size, 0) + body;
      b[|pre| + 8..] == body && b[..|pre| + 6] + LE16(sum) + b[|pre| + 8..] == pre + Head(ts, size, sum) + body
  {
    var b := pre + Head(ts, size, 0) + body;
    assert b[..|pre| + 6] == pre + ([PROTOCOL_SIG, Pid(ts.fragment)] + LE16(size) + LE16(ts.timeIncrementMS));
    assert b[|pre| + 8..] == body;
  }

  lemma EncodeIs(ts: TimeSlot, crc: Checksum32)
    ensures var body := ActionsBytes(ts.actions);
      Encode(ts, crc) == Head(ts, Lo16(8 + |body|), Lo16(crc(body))) + body
  {
  }

  /** The size and the checksum of a packet that starts at `start`. */
  method FillIn(ts: TimeSlot, buf: Buffer, start: nat, crc: Checksum32)
    requires start <= |buf.bytes| && buf.bytes == buf.bytes[..start] + Head(ts, 0, 0) + ActionsBytes(ts.actions)
    modifies buf
    ensures buf.bytes == old(buf.bytes)[..start] + Encode(ts, crc)
  {
    hide Head, Encode, ActionsBytes;
    ghost var pre, body := buf.bytes[..start], ActionsBytes(ts.actions);
    var size := Lo16(|buf.bytes| - start);
    PatchSize(pre, ts, size, body);
    buf.WriteUInt16At(start + 2, size);
    PatchSum(pre, ts, size, Lo16(crc(body)), body);
    buf.WriteUInt16At(start + 6, Lo16(crc(buf.bytes[start + 8..])));
    EncodeIs(ts, crc);
    assert pre + Head(ts, size, Lo16(crc(body))) + body == pre + (Head(ts, size, Lo16(crc(body))) + body);
  }

  /** TimeSlot.Serialize: the size and the checksum are filled in last. */
  method Serialize(ts: TimeSlot, buf: Buffer, crc: Checksum32)
    modifies buf
    ensures buf.bytes == old(buf.bytes) + Encode(ts, crc)
  {
    hide Head, Encode, ActionsBytes;
    var start := |buf.bytes|;
    WriteHead(ts, buf);
    WriteActions(ts.actions, buf);
    assert buf.bytes[..start] == old(buf.bytes);
    FillIn(ts, buf, start, crc);
  }

  /** A packet struct that CacheFactory hands out again and again. The Actions slice keeps its
      storage: only the first `len` entries of `backing` are in use. */
  class Packet {
    var fragment: bool
    var timeIncrementMS: UInt16
    var backing: seq<PlayerAction>
    var len: nat

    ghost predicate Valid()
      reads this
    {
      len <= |backing|
    }

    ghost function View(): TimeSlot
      reads this
      requires Valid()
    {
      TimeSlot(fragment, timeIncrementMS, backing[..len])
    }

    /** The zero TimeSlot that a factory makes. */
    constructor ()
      ensures Valid() && View() == TimeSlot(false, 0, [])
    {
      fragment, timeIncrementMS, backing, len := false, 0, [], 0;
    }

    /** pkt.Actions[i], made to exist by reslicing or by appending; its old contents stay in it. */
    method GrowTo(n: nat)
      requires Valid() && n == len + 1
      modifies this`backing, this`len
      ensures Valid() && len == n && backing[..n - 1] == old(backing[..len])
    {
      if |backing| < n {
        backing := backing + [PlayerAction(0, [])];
      }
      len := n;
    }

    /** One turn of the loop of Deserialize. */
    method DeserializeAction(buf: Buffer, size: int) returns (subsize: int, ok: bool)
      requires Valid()
      modifies this`backing, this`len, buf
      ensures Valid()
      ensures |old(buf.bytes)| < 3 ==> !ok
      ensures |old(buf.bytes)| >= 3 ==>
        && subsize == Get16(old(buf.bytes)[1..])
        && (ok <==> size < subsize || 3 + subsize <= |old(buf.bytes)|)
      ensures ok && subsize <= size ==>
        && backing[..len] == old(backing[..len]) + [PlayerAction(old(buf.bytes)[0], old(buf.bytes)[3..3 + subsize])]
        && buf.bytes == old(buf.bytes)[3 + subsize..]
    {
      ghost var b := buf.bytes;
      GrowTo(len + 1);
      if |buf.bytes| < 3 {
        return 0, false;
      }
      var i := len - 1;
      var id := buf.ReadUInt8();
      backing := backing[i := backing[i].(playerID := id)];
      subsize := buf.ReadUInt16();
      if size < subsize {
        return subsize, true;
      }
      if |buf.bytes| < subsize {
        return subsize, false;
      }
      assert buf.bytes == b[3..] && b[3..][..subsize] == b[3..3 + subsize];
      var data := buf.ReadBlob(subsize);
      backing := backing[i := backing[i].(data := data)];
      assert backing[..i] == old(backing[..len]);
      assert backing[..len] == backing[..i] + [backing[i]];
      ok := true;
    }

    /** The loop of Deserialize. */
    method DeserializeActions(buf: Buffer, n: int) returns (err: Result)
      requires Valid() && len == 0
      modifies this`backing, this`len, buf
      ensures Valid()
      ensures DecodeActions(old(buf.bytes), n) == Answer(err, backing[..len], buf.bytes)
    {
      var size := n;
      ghost var whole := DecodeActions(buf.bytes, n);
      AfterNothing(whole);
      while size >= 3
        invariant Valid()
        invariant whole == After(backing[..len], DecodeActions(buf.bytes, size))
        decreases size
      {
        ghost var before, b := backing[..len], buf.bytes;
        var subsize, ok := DeserializeAction(buf, size);
        if !ok {
          return Panic;
        }
        if size < subsize {
          return Err(ErrInvalidPacketSize);
        }
        size := size - 3 - subsize;
        AfterAgain(before, [PlayerAction(b[0], b[3..3 + subsize])], DecodeActions(buf.bytes, size));
      }
      if size != 0 {
        return Err(ErrInvalidPacketSize);
      }
      assert backing[..len] + [] == backing[..len];
      return OK;
    }

    /** Deserialize. The result does not depend on what the struct held before. */
    method Deserialize(buf: Buffer, crc: Checksum32) returns (err: Result)
      requires Valid()
      modifies this, buf
      ensures Valid()
      ensures Decode(old(buf.bytes), crc) == Answer(err, View(), buf.bytes)
    {
      ghost var b := buf.bytes;
      if |buf.bytes| < 4 {
        return Err(ErrInvalidPacketSize);
      }
      var bsize := |buf.bytes|;
      buf.Skip(1);
      var pid := buf.ReadUInt8();
      var size: int := buf.ReadUInt16();
      assert size == Get16(b[2..]) && buf.bytes == b[4..];
      if size > bsize || size < 6 {
        return Err(ErrInvalidPacketSize);
      }
      fragment := pid == PID_INCOMING_ACTION2;
      timeIncrementMS := buf.ReadUInt16();
      assert buf.bytes == b[6..];
      if size == 6 {
        backing, len := [], 0;
        return OK;
      } else if size < 8 {
        return Err(ErrInvalidPacketSize);
      }
      size := size - 8;
      var sum := buf.ReadUInt16();
      assert buf.bytes == b[8..] && buf.bytes[..size] == b[8..size + 8];
      if sum != Lo16(crc(buf.bytes[..size])) {
        return Err(ErrInvalidChecksum);
      }
      len := 0;
      err := DeserializeActions(buf, size);
    }
  }
}
