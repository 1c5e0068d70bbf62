// Packets in a byte stream: Decoder.ReadRaw and Decoder.Read (protocol/w3gs/serialization.go)
// and the loop that drives them (network/network.go, W3GSConn.Run).

module Framing {
  import opened Wire
  import TimeSlots
  import Fragments

  const PROTOCOL_SIG: Byte := 0xF7

  /** Packet.Deserialize for the packet type that the factory picks. */
  type Deserializer<!T> = Bytes -> Outcome<T>

  // ---- One read -----------------------------------------------------------

  datatype Raw = Frame(bytes: Bytes, rest: Bytes) | Bad(err: Error, rest: Bytes)

  function RawAt(s: Bytes): (r: Raw)
    ensures r.Frame? ==> |r.rest| < |s|
  {
    if s == [] then Bad(ErrEOF, [])
    else if |s| < 4 then Bad(ErrNoProtocolSig, [])
    else if s[0] != PROTOCOL_SIG || Get16(s[2..]) < 4 then Bad(ErrNoProtocolSig, s[4..])
    else if |s| < Get16(s[2..]) as int then Bad(ErrUnexpectedEOF, [])
    else Frame(s[..Get16(s[2..])], s[Get16(s[2..])..])
  }

  datatype Event<T> = Packet(packet: T) | Problem(err: Error) | Crash

  /** What Read answers for one whole frame. */
  function Verdict<T>(frame: Bytes, des: Deserializer<T>): Event<T> {
    match des(frame)
    case Done(p, rest) => if rest == [] then Packet(p) else Problem(ErrInvalidPacketSize)
    case Failed(err) => Problem(err)
    case Panics => Crash
  }

  /** The errors after which the connection is still good. */
  predicate Recoverable(err: Error) {
    err == ErrInvalidPacketSize || err == ErrInvalidChecksum || err == ErrUnexpectedConst
  }

  predicate Fatal<T>(e: Event<T>) {
    e.Crash? || (e.Problem? && !Recoverable(e.err))
  }

  /** The packets that Run fires for a stream. */
  function Delivered<T>(s: Bytes, des: Deserializer<T>): seq<T>
    decreases |s|
  {
    match RawAt(s)
    case Bad(_, _) => []
    case Frame(bytes, rest) =>
      var e := Verdict(bytes, des);
      if Fatal(e) then [] else (if e.Packet? then [e.packet] else []) + Delivered(rest, des)
  }

  // ---- Streams of frames --------------------------------------------------

  predicate WellFormed(f: Bytes) {
    |f| >= 4 && f[0] == PROTOCOL_SIG && Get16(f[2..]) == |f|
  }

  lemma RawAtFrame(f: Bytes, tail: Bytes)
    requires WellFormed(f)
    ensures RawAt(f + tail) == Frame(f, tail)
  {
    var s := f + tail;
    assert Get16(s[2..]) == Get16(f[2..]);
    assert s[..|f|] == f && s[|f|..] == tail;
  }

  /** The packets of the frames before the first one that ends the connection. */
  function Expected<T>(frames: seq<Bytes>, des: Deserializer<T>): seq<T> {
    if frames == [] then []
    else
      var e := Verdict(frames[0], des);
      if Fatal(e) then [] else (if e.Packet? then [e.packet] else []) + Expected(frames[1..], des)
  }

  /** Each read takes exactly one frame, whether or not it decodes. */
  lemma {:induction false} DeliveredFrames<T>(frames: seq<Bytes>, des: Deserializer<T>)
    requires forall i | 0 <= i < |frames| :: WellFormed(frames[i])
    ensures Delivered(Concat(frames), des) == Expected(frames, des)
    decreases |frames|
  {
    if frames != [] {
      RawAtFrame(frames[0], Concat(frames[1..]));
      DeliveredFrames(frames[1..], des);
    }
  }

  /** A frame that fails to decode leaves no trace: the others are delivered as if it were absent. */
  lemma BadFrameLeavesNoTrace<T>(before: seq<Bytes>, bad: Bytes, after: seq<Bytes>, des: Deserializer<T>)
    requires forall f | f in before + [bad] + after :: WellFormed(f)
    requires Verdict(bad, des).Problem? && Recoverable(Verdict(bad, des).err)
    ensures Delivered(Concat(before + [bad] + after), des) == Delivered(Concat(before + after), des)
  {
    var with, without := before + [bad] + after, before + after;
    assert forall i | 0 <= i < |with| :: with[i] in with;
    forall i | 0 <= i < |without|
      ensures WellFormed(without[i])
    {
      assert without[i] in with;
    }
    DeliveredFrames(with, des);
    DeliveredFrames(without, des);
    ExpectedSkips(before, bad, after, des);
  }

  lemma {:induction false} ExpectedSkips<T>(before: seq<Bytes>, bad: Bytes, after: seq<Bytes>, des: Deserializer<T>)
    requires Verdict(bad, des).Problem? && Recoverable(Verdict(bad, des).err)
    ensures Expected(before + [bad] + after, des) == Expected(before + after, des)
    decreases |before|
  {
    if before == [] {
      assert (before + [bad] + after)[1..] == after;
      assert before + after == after;
    } else {
      assert (before + [bad] + after)[1..] == before[1..] + [bad] + after;
      assert (before + after)[1..] == before[1..] + after;
      ExpectedSkips(before[1..], bad, after, des);
    }
  }

  /** Packets sent back to back are read back as sent. */
  lemma {:induction false} StreamRoundTrip<T>(packets: seq<T>, ser: T -> Bytes, des: Deserializer<T>)
    requires forall p | p in packets :: WellFormed(ser(p)) && des(ser(p)) == Done(p, [])
    ensures Delivered(Concat(Map(packets, ser)), des) == packets
    decreases |packets|
  {
    if packets != [] {
      assert packets[0] in packets;
      RawAtFrame(ser(packets[0]), Concat(Map(packets[1..], ser)));
      StreamRoundTrip(packets[1..], ser, des);
    }
  }

  function Map<T>(packets: seq<T>, ser: T -> Bytes): seq<Bytes> {
    if packets == [] then [] else [ser(packets[0])] + Map(packets[1..], ser)
  }

  // ---- A tick, from the queue of the host to the queue of the receiver ----

  lemma EncodedIsFrame(ts: TimeSlots.TimeSlot, crc: TimeSlots.Checksum32)
    requires TimeSlots.Fits(ts)
    ensures WellFormed(TimeSlots.Encode(ts, crc))
    ensures TimeSlots.Decode(TimeSlots.Encode(ts, crc), crc) == Done(ts, [])
  {
    var f := TimeSlots.Encode(ts, crc);
    var body := TimeSlots.ActionsBytes(ts.actions);
    assert f[2..] == LE16(8 + |body|) + f[4..];
    Get16OfLE16(8 + |body|, f[4..]);
    TimeSlots.RoundTrip(ts, [], crc);
    assert f + [] == f;
  }

  /** The receiver of a tick puts the fragments together to the queue that the host had. */
  lemma TickArrives(actions: Fragments.Actions, inc: UInt16, crc: TimeSlots.Checksum32)
    requires Fragments.AllSmall(actions)
    ensures var sent := Fragments.Sent(actions, inc);
      var got := Delivered(Concat(Map(sent, ts => TimeSlots.Encode(ts, crc))), b => TimeSlots.Decode(b, crc));
      got == sent && Fragments.Joined(got) == actions
  {
    var sent := Fragments.Sent(actions, inc);
    Fragments.SentCarriesQueue(actions, inc);
    var ser := ts => TimeSlots.Encode(ts, crc);
    var des := b => TimeSlots.Decode(b, crc);
    forall ts | ts in sent
      ensures WellFormed(ser(ts)) && des(ser(ts)) == Done(ts, [])
    {
      Fragments.PacketBound(ts, crc);
      EncodedIsFrame(ts, crc);
    }
    StreamRoundTrip(sent, ser, des);
  }

  /** One call of Read: the event it answers and the stream it leaves. */
  ghost predicate Reads<T>(s: Bytes, des: Deserializer<T>, e: Event<T>, rest: Bytes) {
    match RawAt(s)
    case Bad(err, left) => e == Problem(err) && rest == left
    case Frame(bytes, left) => e == Verdict(bytes, des) && rest == left
  }

  lemma DeliveredStep<T>(s: Bytes, des: Deserializer<T>, e: Event<T>, rest: Bytes)
    requires Reads(s, des, e, rest)
    ensures Fatal(e) ==> Delivered(s, des) == []
    ensures !Fatal(e) ==> |rest| < |s|
    ensures !Fatal(e) ==> Delivered(s, des) == (if e.Packet? then [e.packet] else []) + Delivered(rest, des)
  {
  }

  // ---- The reader and the loop --------------------------------------------

  /** The io.Reader under a connection. */
  class Reader {
    var rest: Bytes

    constructor (b: Bytes)
      ensures rest == b
    {
      rest := b;
    }

    /** io.ReadFull: n bytes, or as many as there are and an error. */
    method ReadFull(n: nat) returns (b: Bytes, err: Result)
      modifies this
      ensures b + rest == old(rest) && |b| == if n <= |old(rest)| then n else |old(rest)|
      ensures err == if n <= |old(rest)| then OK else if b == [] then Err(ErrEOF) else Err(ErrUnexpectedEOF)
    {
      if n <= |rest| {
        b, rest, err := rest[..n], rest[n..], OK;
      } else {
        err := if rest == [] then Err(ErrEOF) else Err(ErrUnexpectedEOF);
        b, rest := rest, [];
      }
    }
  }

  /** w3gs.Decoder with its buffer for raw packets. */
  class Decoder {
    var bufRaw: Bytes

    constructor ()
      ensures bufRaw == []
    {
      bufRaw := [];
    }

    /** On success the frame is in bufRaw; n counts the bytes taken from r. */
    method ReadRaw(r: Reader) returns (n: nat, err: Result)
      modifies this, r
      ensures !err.Panic?
      ensures RawAt(old(r.rest)) == if err.OK? then Frame(bufRaw, r.rest) else Bad(err.err, r.rest)
      ensures n == |old(r.rest)| - |r.rest|
    {
      ghost var s := r.rest;
      bufRaw, err := r.ReadFull(4);
      n := |bufRaw|;
      if err.Err? {
        if err.err == ErrUnexpectedEOF {
          err := Err(ErrNoProtocolSig);
        }
        return;
      }
      assert bufRaw == s[..4] && r.rest == s[4..];
      if bufRaw[0] != PROTOCOL_SIG {
        return 4, Err(ErrNoProtocolSig);
      }
      var size := (bufRaw[3] as int) * 0x100 + bufRaw[2];
      assert size == Get16(s[2..]);
      if size < 4 {
        return 4, Err(ErrNoProtocolSig);
      }
      var more;
      more, err := r.ReadFull(size - 4);
      n := |more| + 4;
      bufRaw := bufRaw + more;
      assert bufRaw + r.rest == s;
      if err.Err? && err.err == ErrEOF {
        err := Err(ErrUnexpectedEOF);
      }
      assert err.OK? ==> bufRaw == s[..size];
    }

    method Read<T>(r: Reader, des: Deserializer<T>) returns (e: Event<T>)
      modifies this, r
      ensures Reads(old(r.rest), des, e, r.rest)
    {
      var n, err := ReadRaw(r);
      if err.Err? {
        return Problem(err.err);
      }
      match des(bufRaw)
      case Failed(why) => return Problem(why);
      case Panics => return Crash;
      case Done(p, rest) =>
        var m := |bufRaw| - |rest|;
        if m != n {
          return Problem(ErrInvalidPacketSize);
        }
        return Packet(p);
    }

    /** W3GSConn.Run, collecting what it fires. */
    method Run<T>(r: Reader, des: Deserializer<T>) returns (fired: seq<T>)
      modifies this, r
      ensures fired == Delivered(old(r.rest), des)
    {
      hide Delivered, Reads, RawAt;
      fired := [];
      assert fired + Delivered(r.rest, des) == Delivered(r.rest, des);
      while true
        invariant fired + Delivered(r.rest, des) == Delivered(old(r.rest), des)
        decreases |r.rest|
      {
        ghost var s, soFar := r.rest, fired;
        var e := Read(r, des);
        DeliveredStep(s, des, e, r.rest);
        if Fatal(e) {
          assert fired + [] == fired;
          return;
        }
        if e.Packet? {
          fired := fired + [e.packet];
          assert fired + Delivered(r.rest, des) == soFar + ([e.packet] + Delivered(r.rest, des));
        } else {
          assert [] + Delivered(r.rest, des) == Delivered(r.rest, des);
        }
      }
    }
  }
}
