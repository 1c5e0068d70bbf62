// Reading replay records from a stream (file/w3g/serialization.go and ForEach in file/w3g/decompress.go).

module RecordReader {
  import opened Peekers
  import opened Records
  import TimeSlots
  import opened Wire

  const FIRST_PEEK: nat := 1024
  const MIN_CAP: nat := 16

  // ---- What Read makes of any stream --------------------------------------

  /** The stream after its leading zero bytes. */
  function Strip(b: Bytes): (r: Bytes)
    ensures EndOf(r, b)
    ensures r != [] ==> r[0] != 0
  {
    if b == [] || b[0] != 0 then b else Strip(b[1..])
  }

  /** Decoding from windows that double until one holds the record. */
  function Try(r: Bytes, cap: nat, peek: nat, d: Decoding): Outcome<Record>
    requires peek > 0
    decreases if peek <= cap then 1 + cap - peek else 0
  {
    var w := Shown(r, cap, peek);
    DecodeConsumes(w, d);
    match Decode(w, d)
    case Done(v, left) => Done(v, r[|w| - |left|..])
    case Panics => Panics
    case Failed(err) =>
      if err != ErrShortBuffer then Failed(err)
      else if peek > cap then Failed(ErrBufferFull)
      else if |w| < peek then Failed(ErrUnexpectedEOF)
      else Try(r, cap, 2 * peek, d)
  }

  /** At the end of the stream the answer is the error of the peek, which is EOF only if the reader could show that far. */
  function ReadOne(stream: Bytes, cap: nat, d: Decoding): Outcome<Record> {
    var r := Strip(stream);
    if r == [] then Failed(PeekErr([], cap, FIRST_PEEK).err) else Try(r, cap, FIRST_PEEK, d)
  }

  lemma {:induction false} TryConsumes(r: Bytes, cap: nat, peek: nat, d: Decoding)
    requires peek > 0
    ensures var o := Try(r, cap, peek, d); o.Done? ==> |o.rest| < |r|
    decreases if peek <= cap then 1 + cap - peek else 0
  {
    var w := Shown(r, cap, peek);
    DecodeConsumes(w, d);
    if Decode(w, d) == Failed(ErrShortBuffer) && peek <= cap && |w| == peek {
      TryConsumes(r, cap, 2 * peek, d);
    }
  }

  lemma ReadOneConsumes(stream: Bytes, cap: nat, d: Decoding)
    ensures var o := ReadOne(stream, cap, d); o.Done? ==> |o.rest| < |stream|
  {
    TryConsumes(Strip(stream), cap, FIRST_PEEK, d);
  }

  /** Read until the end of the stream, or until something else goes wrong. */
  function ReadAll(stream: Bytes, cap: nat, d: Decoding): Outcome<seq<Record>>
    decreases |stream|
  {
    ReadOneConsumes(stream, cap, d);
    match ReadOne(stream, cap, d)
    case Done(v, rest) => Behind([v], ReadAll(rest, cap, d))
    case Failed(err) => if err == ErrEOF then Done([], []) else Failed(err)
    case Panics => Panics
  }

  function Behind(recs: seq<Record>, more: Outcome<seq<Record>>): Outcome<seq<Record>> {
    match more
    case Done(rs, rest) => Done(recs + rs, rest)
    case Failed(err) => Failed(err)
    case Panics => Panics
  }

  // ---- Streams of records -------------------------------------------------

  /** The records with pads[i] zero bytes before the i-th one and pads[|recs|] after the last. */
  function Padded(recs: seq<Record>, pads: seq<nat>, version: nat): Bytes
    requires |pads| == |recs| + 1
    requires forall i | 0 <= i < |recs| :: !recs[i].Other?
  {
    if recs == [] then Zeros(pads[0])
    else Zeros(pads[0]) + (Encode(recs[0], version) + Padded(recs[1..], pads[1..], version))
  }

  function AllStored(recs: seq<Record>, version: nat): seq<Record> {
    if recs == [] then [] else [Stored(recs[0], version)] + AllStored(recs[1..], version)
  }

  lemma {:induction false} StripPadding(n: nat, r: Bytes)
    requires r != [] ==> r[0] != 0
    ensures Strip(Zeros(n) + r) == r
  {
    var b := Zeros(n) + r;
    if n == 0 {
      assert b == r;
    } else {
      assert b[1..] == Zeros(n - 1) + r;
      StripPadding(n - 1, r);
    }
  }

  /**
   * A record is read back, whatever follows it, exactly when the reader can show it whole; a longer one fails with
   * ErrBufferFull.
   */
  lemma {:induction false} TryRecord(r: Record, tail: Bytes, cap: nat, peek: nat, d: Decoding)
    requires Storable(r, d.version) && 4 <= peek && 4 <= cap
    ensures Try(Encode(r, d.version) + tail, cap, peek, d) ==
            if |Encode(r, d.version)| <= cap then Done(Stored(r, d.version), tail) else Failed(ErrBufferFull)
    decreases if peek <= cap then 1 + cap - peek else 0
  {
    hide Encode, Decode, Stored;
    var e := Encode(r, d.version);
    var s := e + tail;
    var w := Shown(s, cap, peek);
    StartsNonzero(r, d.version);
    if |w| < |e| {
      assert w == e[..|w|];
      Cut(r, d, |w|);
      if peek <= cap {
        TryRecord(r, tail, cap, 2 * peek, d);
      }
    } else {
      assert w == e + tail[..|w| - |e|];
      RoundTrip(r, d, tail[..|w| - |e|]);
      assert s[|e|..] == tail;
    }
  }

  predicate Readable(recs: seq<Record>, cap: nat, version: nat) {
    forall i | 0 <= i < |recs| :: Storable(recs[i], version) && |Encode(recs[i], version)| <= cap
  }

  lemma ReadPadded(r: Record, n: nat, tail: Bytes, cap: nat, d: Decoding)
    requires Storable(r, d.version) && 4 <= cap
    ensures ReadOne(Zeros(n) + (Encode(r, d.version) + tail), cap, d) ==
            if |Encode(r, d.version)| <= cap then Done(Stored(r, d.version), tail) else Failed(ErrBufferFull)
  {
    StartsNonzero(r, d.version);
    StripPadding(n, Encode(r, d.version) + tail);
    TryRecord(r, tail, cap, FIRST_PEEK, d);
  }

  /** Records with any zero padding between them are read back in order, up to what is not stored, and then EOF. */
  lemma {:induction false} StreamRoundTrip(recs: seq<Record>, pads: seq<nat>, cap: nat, d: Decoding)
    requires |pads| == |recs| + 1 && 1024 <= cap && Readable(recs, cap, d.version)
    ensures ReadAll(Padded(recs, pads, d.version), cap, d) == Done(AllStored(recs, d.version), [])
    decreases |recs|
  {
    if recs == [] {
      StripPadding(pads[0], []);
      assert Zeros(pads[0]) + [] == Zeros(pads[0]);
    } else {
      var tail := Padded(recs[1..], pads[1..], d.version);
      ReadPadded(recs[0], pads[0], tail, cap, d);
      StreamRoundTrip(recs[1..], pads[1..], cap, d);
    }
  }

  /**
   * And they are read back only if each can be shown whole and the first peek fits the reader: otherwise the reading stops
   * with ErrBufferFull, at the first record that is too long or at the end.
   */
  lemma {:induction false} StreamReadsIff(recs: seq<Record>, pads: seq<nat>, cap: nat, d: Decoding)
    requires |pads| == |recs| + 1 && 4 <= cap
    requires forall i | 0 <= i < |recs| :: !recs[i].Other? && Storable(recs[i], d.version)
    ensures ReadAll(Padded(recs, pads, d.version), cap, d) ==
            if 1024 <= cap && Readable(recs, cap, d.version) then Done(AllStored(recs, d.version), [])
            else Failed(ErrBufferFull)
    decreases |recs|
  {
    if FIRST_PEEK <= cap && Readable(recs, cap, d.version) {
      StreamRoundTrip(recs, pads, cap, d);
    } else if recs == [] {
      StripPadding(pads[0], []);
      assert Zeros(pads[0]) + [] == Zeros(pads[0]);
    } else {
      var tail := Padded(recs[1..], pads[1..], d.version);
      ReadPadded(recs[0], pads[0], tail, cap, d);
      if |Encode(recs[0], d.version)| <= cap {
        assert FIRST_PEEK > cap || !Readable(recs[1..], cap, d.version) by {
          if FIRST_PEEK <= cap {
            var i :| 0 <= i < |recs| && |Encode(recs[i], d.version)| > cap;
            assert recs[1..][i - 1] == recs[i];
          }
        }
        StreamReadsIff(recs[1..], pads[1..], cap, d);
      }
    }
  }

  /** No decoder of another record type answers EOF. */
  ghost predicate EndsNowhere(d: Decoding) {
    forall b :: d.others(b) != Refused(ErrEOF)
  }

  /** A reader that shows less than the first peek never gets to EOF, whatever the stream: not even if that is empty. */
  lemma {:induction false} SmallReaderNeverEnds(stream: Bytes, cap: nat, d: Decoding)
    requires cap < 1024 && EndsNowhere(d)
    ensures !ReadAll(stream, cap, d).Done?
    ensures Strip(stream) == [] ==> ReadAll(stream, cap, d) == Failed(ErrBufferFull)
    decreases |stream|
  {
    hide Decode, EndsNowhere, Strip;
    ReadOneConsumes(stream, cap, d);
    NoEOF(Shown(Strip(stream), cap, FIRST_PEEK), d);
    if ReadOne(stream, cap, d).Done? {
      SmallReaderNeverEnds(ReadOne(stream, cap, d).rest, cap, d);
    }
  }

  lemma NoEOF(b: Bytes, d: Decoding)
    requires EndsNowhere(d)
    ensures Decode(b, d) != Failed(ErrEOF)
  {
    hide Get16, Get32, MoreText, TimeSlots.DecodeActions;
    if |b| > 9 {
      TextNoEOF(b[5..], Get16(b[2..]), d.printable);
      TextNoEOF(b[9..], Get16(b[2..]) - 4, d.printable);
    } else if |b| > 4 {
      TextNoEOF(b[5..], Get16(b[2..]), d.printable);
    }
  }

  lemma TextNoEOF(b: Bytes, size: int, printable: Bytes -> bool)
    ensures Text(b, size, printable) != Failed(ErrEOF)
  {
    match TakeCString(b)
    case Done(s, rest) => MoreTextNoEOF(rest, size - 2 - |s|, s, printable);
    case _ =>
  }

  lemma {:induction false} MoreTextNoEOF(b: Bytes, size: int, text: Bytes, printable: Bytes -> bool)
    ensures MoreText(b, size, text, printable) != Failed(ErrEOF)
    decreases size
  {
    if size > 0 {
      match TakeCString(b)
      case Done(s, rest) => MoreTextNoEOF(rest, size - |s| - 1, text + s, printable);
      case _ =>
    }
  }

  // ---- The decoder --------------------------------------------------------

  /** TimeSlot.Deserialize, into the packet that TimeSlot embeds. */
  method DeserializeSlot(buf: Buffer, version: nat) returns (rec: Record, err: Result)
    modifies buf
    ensures DecodeSlot(old(buf.bytes), version) == Answer(err, rec, buf.bytes)
  {
    ghost var b := buf.bytes;
    rec := GameStart;
    if |buf.bytes| < 5 {
      return rec, Err(ErrShortBuffer);
    }
    var pkt := new TimeSlots.Packet();
    var id := buf.ReadUInt8();
    pkt.fragment := id == RID_TIMESLOT2 && !Early(version);
    var size: int := buf.ReadUInt16();
    assert buf.bytes == b[3..];
    if size < 2 || |buf.bytes| < size {
      return rec, Err(ErrShortBuffer);
    }
    pkt.timeIncrementMS := buf.ReadUInt16();
    assert buf.bytes == b[5..];
    pkt.len := 0;
    err := pkt.DeserializeActions(buf, size - 2);
    if !err.OK? {
      return rec, if err.Panic? then Panic else Err(ErrBadFormat);
    }
    rec := Slot(TimeSlots.TimeSlot(pkt.fragment, pkt.timeIncrementMS, pkt.backing[..pkt.len]));
  }

  /** The text of a chat message: one string, and more while the size field says so. */
  method ReadText(buf: Buffer, n: int, printable: Bytes -> bool) returns (text: Bytes, err: Result)
    modifies buf
    ensures Text(old(buf.bytes), n, printable) == Answer(err, text, buf.bytes)
  {
    hide TakeCString;
    ghost var whole := Text(buf.bytes, n, printable);
    var ok;
    text, ok := buf.ReadCString();
    if !ok {
      return text, Err(ErrNoCStringTerminatorFound);
    }
    var size := n - 2 - |text|;
    while size > 0
      invariant whole == MoreText(buf.bytes, size, text, printable)
      decreases size
    {
      var s, more := buf.ReadCString();
      if !more {
        return text, Err(ErrNoCStringTerminatorFound);
      }
      if !printable(s) {
        return text, Err(ErrBadFormat);
      }
      text := text + s;
      size := size - (|s| + 1);
    }
    return text, if size != 0 then Err(ErrBadFormat) else OK;
  }

  /** ChatMessage.Deserialize; a buffer of exactly three bytes panics. */
  method DeserializeChat(buf: Buffer, printable: Bytes -> bool) returns (rec: Record, err: Result)
    modifies buf
    ensures DecodeChat(old(buf.bytes), printable) == Answer(err, rec, buf.bytes)
  {
    hide Text, Get32, Get16;
    ghost var b := buf.bytes;
    rec := GameStart;
    if |buf.bytes| < 3 {
      return rec, Err(ErrShortBuffer);
    }
    buf.Skip(1);
    var sender := buf.ReadUInt8();
    assert buf.bytes == b[2..];
    if |buf.bytes| < 2 {
      return rec, Panic;
    }
    var size: int := buf.ReadUInt16();
    assert buf.bytes == b[4..];
    if size < 2 || |buf.bytes| < size {
      return rec, Err(ErrShortBuffer);
    }
    var kind := buf.ReadUInt8();
    assert buf.bytes == b[5..];
    var scope: UInt32 := 0;
    if kind == MSG_CHAT_EXTRA || kind == MSG_CHAT {
      if kind == MSG_CHAT_EXTRA {
        if size < 6 {
          return rec, Err(ErrBadFormat);
        }
        size := size - 4;
        scope := buf.ReadUInt32();
        assert buf.bytes == b[9..];
      }
      var text;
      text, err := ReadText(buf, size, printable);
      rec := Chat([], sender, kind, 0, scope, text);
    } else {
      if size != 2 {
        return rec, Err(ErrBadFormat);
      }
      var newVal := buf.ReadUInt8();
      assert buf.bytes == b[6..];
      return Chat([], sender, kind, newVal, 0, []), OK;
    }
  }

  method DeserializeAck(buf: Buffer) returns (rec: Record, err: Result)
    modifies buf
    ensures DecodeAck(old(buf.bytes)) == Answer(err, rec, buf.bytes)
  {
    ghost var b := buf.bytes;
    if |buf.bytes| < 2 {
      return GameStart, Err(ErrShortBuffer);
    }
    buf.Skip(1);
    var size := buf.ReadUInt8();
    assert buf.bytes == b[2..];
    if |buf.bytes| < size {
      return GameStart, Err(ErrShortBuffer);
    }
    var sum := buf.ReadBlob(size);
    assert sum == b[2..2 + size];
    return Ack(sum), OK;
  }

  method DeserializePlayerLeft(buf: Buffer) returns (rec: Record, err: Result)
    modifies buf
    ensures DecodePlayerLeft(old(buf.bytes)) == Answer(err, rec, buf.bytes)
  {
    hide Get32;
    ghost var b := buf.bytes;
    if |buf.bytes| < 14 {
      return GameStart, Err(ErrShortBuffer);
    }
    buf.Skip(1);
    var how := buf.ReadUInt32();
    assert buf.bytes == b[5..];
    if how != 0x01 && how != 0x0E && how != 0x0C {
      return GameStart, Err(ErrUnexpectedConst);
    }
    var id := buf.ReadUInt8();
    assert buf.bytes == b[6..];
    var reason := buf.ReadUInt32();
    assert buf.bytes == b[10..];
    var counter := buf.ReadUInt32();
    assert buf.bytes == b[14..];
    return PlayerLeft(how == 0x0C, id, reason, counter), OK;
  }

  method DeserializeEndTimer(buf: Buffer) returns (rec: Record, err: Result)
    modifies buf
    ensures DecodeEndTimer(old(buf.bytes)) == Answer(err, rec, buf.bytes)
  {
    hide Get32;
    ghost var b := buf.bytes;
    if |buf.bytes| < 9 {
      return GameStart, Err(ErrShortBuffer);
    }
    buf.Skip(1);
    var over := buf.ReadUInt32();
    assert buf.bytes == b[5..];
    var sec := buf.ReadUInt32();
    assert buf.bytes == b[9..];
    return EndTimer(over > 0, sec), OK;
  }

  /** GameStart.Deserialize, which the count-down records inherit. */
  method DeserializeStart(buf: Buffer, r: Record) returns (rec: Record, err: Result)
    modifies buf
    ensures DecodeStart(old(buf.bytes), r) == Answer(err, rec, buf.bytes)
  {
    hide Get32;
    ghost var b := buf.bytes;
    if |buf.bytes| < 5 {
      return r, Err(ErrShortBuffer);
    }
    buf.Skip(1);
    var one := buf.ReadUInt32();
    assert buf.bytes == b[5..];
    return r, if one != 1 then Err(ErrUnexpectedConst) else OK;
  }

  /** The zero bytes that a window starts with, the first being one. */
  method LeadingZeros(w: Bytes) returns (n: nat)
    requires |w| > 0 && w[0] == 0
    ensures 1 <= n <= |w| && forall i | 0 <= i < n :: w[i] == 0
    ensures n < |w| ==> w[n] != 0
  {
    n := 1;
    while n < |w| && w[n] == 0
      invariant 1 <= n <= |w|
      invariant forall i | 0 <= i < n :: w[i] == 0
    {
      n := n + 1;
    }
  }

  class RecordDecoder {
    const d: Decoding
    const buf: Buffer

    constructor (d: Decoding)
      ensures this.d == d && fresh(buf)
    {
      this.d := d;
      buf := new Buffer([]);
    }

    /** The factory's choice of record type, and that type's Deserialize. */
    method DeserializeAs(id: Byte) returns (rec: Record, err: Result)
      requires |buf.bytes| >= 2 && id == buf.bytes[0]
      modifies buf
      ensures Decode(old(buf.bytes), d) == Answer(err, rec, buf.bytes)
    {
      hide DecodeSlot, DecodeChat, DecodeAck, DecodePlayerLeft, DecodeEndTimer, DecodeStart;
      if id == RID_PLAYER_LEFT {
        rec, err := DeserializePlayerLeft(buf);
      } else if id == RID_COUNTDOWN_START {
        rec, err := DeserializeStart(buf, CountDownStart);
      } else if id == RID_COUNTDOWN_END {
        rec, err := DeserializeStart(buf, CountDownEnd);
      } else if id == RID_GAME_START {
        rec, err := DeserializeStart(buf, GameStart);
      } else if id == RID_TIMESLOT2 || id == RID_TIMESLOT {
        rec, err := DeserializeSlot(buf, d.version);
      } else if id == RID_CHAT_MESSAGE && !Early(d.version) {
        rec, err := DeserializeChat(buf, d.printable);
      } else if id == RID_CHAT_MESSAGE || id == RID_TIMESLOT_ACK {
        rec, err := DeserializeAck(buf);
      } else if id == RID_END_TIMER {
        rec, err := DeserializeEndTimer(buf);
      } else if id in OTHER_RIDS {
        match d.others(buf.bytes)
        case Took(n) =>
          if |buf.bytes| < 1 + n {
            return GameStart, Panic;
          }
          rec, err := Other(buf.bytes[..1 + n]), OK;
          buf.Skip(1 + n);
        case Refused(e) =>
          rec, err := GameStart, Err(e);
      } else {
        rec, err := GameStart, Err(ErrUnknownRecord);
      }
    }

    /** RecordDecoder.Deserialize: the record and the bytes it took. */
    method Deserialize(b: Bytes) returns (rec: Record, n: nat, err: Result)
      modifies buf
      ensures n <= |b| && Decode(b, d) == Answer(err, rec, b[n..])
    {
      hide Decode;
      buf.bytes := b;
      var size := |buf.bytes|;
      if size < 2 {
        DecodeTiny(b, d);
        return GameStart, 0, Err(ErrUnexpectedEOF);
      }
      rec, err := DeserializeAs(b[0]);
      DecodeConsumes(b, d);
      n := if |buf.bytes| <= size then size - |buf.bytes| else 0;
    }

    /** Discards the zero bytes that a window starts with. */
    method SkipPadding(r: Peeker, w: Bytes)
      requires 0 < |w| <= |r.rest| && w == r.rest[..|w|] && w[0] == 0
      modifies r
      ensures |r.rest| < |old(r.rest)| && Strip(r.rest) == Strip(old(r.rest))
    {
      hide Strip, EndOf;
      var n := LeadingZeros(w);
      assert forall i | 0 <= i < n :: r.rest[i] == w[i];
      StripSome(r.rest, n);
      var _, e := r.Discard(n);
    }

    /** RecordDecoder.Read: skip the padding, then peek twice as far until the record decodes. */
    method Read(r: Peeker) returns (rec: Record, err: Result)
      requires r.cap >= MIN_CAP
      modifies r, buf
      ensures ReadOne(old(r.rest), r.cap, d) == Answer(err, rec, r.rest)
    {
      hide Decode, Strip, Try, EndOf;
      ghost var whole := ReadOne(r.rest, r.cap, d);
      var peek := FIRST_PEEK;
      rec := GameStart;
      while true
        invariant peek >= FIRST_PEEK
        invariant peek == FIRST_PEEK || (r.rest != [] && r.rest[0] != 0)
        invariant whole == if Strip(r.rest) == [] then Failed(PeekErr([], r.cap, FIRST_PEEK).err)
                           else Try(Strip(r.rest), r.cap, peek, d)
        decreases |r.rest|, if peek <= r.cap then 1 + r.cap - peek else 0
      {
        var w, peekErr := r.Peek(peek);
        StripStarts(r.rest);
        if |w| == 0 {
          return rec, peekErr;
        }
        if w[0] == 0 {
          SkipPadding(r, w);
          continue;
        }
        TryUnfolds(r.rest, r.cap, peek, d);
        var n, e;
        rec, n, e := Deserialize(w);
        if e.OK? {
          var _, e2 := r.Discard(n);
          return rec, e2;
        }
        if e != Err(ErrShortBuffer) {
          return rec, e;
        }
        if peekErr != OK && peekErr != Err(ErrEOF) {
          return rec, peekErr;
        }
        if |w| < peek {
          return rec, Err(ErrUnexpectedEOF);
        }
        peek := peek * 2;
      }
    }

    /** Decompressor.ForEach, with the records passed on in order. */
    method ForEach(r: Peeker) returns (recs: seq<Record>, err: Result)
      requires r.cap >= MIN_CAP
      modifies r, buf
      ensures ReadAll(old(r.rest), r.cap, d) == Answer(err, recs, [])
    {
      hide ReadOne;
      ghost var whole := ReadAll(r.rest, r.cap, d);
      recs := [];
      BehindNothing(whole);
      while true
        invariant whole == Behind(recs, ReadAll(r.rest, r.cap, d))
        decreases |r.rest|
      {
        ReadOneConsumes(r.rest, r.cap, d);
        ghost var stream := r.rest;
        var rec, e := Read(r);
        if e == Err(ErrEOF) {
          assert recs + [] == recs;
          return recs, OK;
        }
        if e != OK {
          return recs, e;
        }
        BehindAgain(recs, [rec], ReadAll(r.rest, r.cap, d));
        recs := recs + [rec];
      }
    }
  }

  lemma DecodeTiny(b: Bytes, d: Decoding)
    ensures |b| < 2 ==> Decode(b, d) == Failed(ErrUnexpectedEOF)
  {
  }

  lemma StripStarts(b: Bytes)
    ensures b == [] || b[0] != 0 ==> Strip(b) == b
  {
  }

  lemma TryUnfolds(r: Bytes, cap: nat, peek: nat, d: Decoding)
    requires peek > 0
    ensures var w, o := Shown(r, cap, peek), Try(r, cap, peek, d);
      match Decode(w, d)
      case Done(v, left) => |left| < |w| && o == Done(v, r[|w| - |left|..])
      case Panics => o == Panics
      case Failed(err) =>
        o == if err != ErrShortBuffer then Failed(err)
             else if peek > cap then Failed(ErrBufferFull)
             else if |w| < peek then Failed(ErrUnexpectedEOF)
             else Try(r, cap, 2 * peek, d)
  {
    hide Decode;
    DecodeConsumes(Shown(r, cap, peek), d);
  }

  lemma {:induction false} StripSome(b: Bytes, n: nat)
    requires n <= |b| && forall i | 0 <= i < n :: b[i] == 0
    ensures Strip(b) == Strip(b[n..])
  {
    if n > 0 {
      StripSome(b[1..], n - 1);
      assert b[1..][n - 1..] == b[n..];
    }
  }

  lemma BehindNothing(o: Outcome<seq<Record>>)
    ensures Behind([], o) == o
  {
    assert o.Done? ==> [] + o.value == o.value;
  }

  lemma BehindAgain(recs: seq<Record>, more: seq<Record>, o: Outcome<seq<Record>>)
    ensures Behind(recs, Behind(more, o)) == Behind(recs + more, o)
  {
    assert o.Done? ==> recs + (more + o.value) == recs + more + o.value;
  }
}
