// Which packets that do not decode end a connection (network/network.go, W3GSConn.Run), packet type by packet type.

module Deliveries {
  import opened Framing
  import MessageReuse
  import PacketReuse
  import TimeSlots
  import opened Wire

  ghost predicate AllFrames(frames: seq<Bytes>) {
    forall f | f in frames :: WellFormed(f)
  }

  /** The others are delivered as if the frame were absent. */
  ghost predicate Skipped<T(!new)>(bad: Bytes, des: Deserializer<T>) {
    forall before, after | AllFrames(before + [bad] + after) ::
      Delivered(Concat(before + [bad] + after), des) == Delivered(Concat(before + after), des)
  }

  /** What comes after the frame is not delivered any more. */
  ghost predicate Ends<T(!new)>(bad: Bytes, des: Deserializer<T>) {
    forall before, after | AllFrames(before + [bad] + after) ::
      Delivered(Concat(before + [bad] + after), des) == Delivered(Concat(before), des)
  }

  lemma SkippedIs<T(!new)>(bad: Bytes, des: Deserializer<T>)
    requires Verdict(bad, des).Problem? && Recoverable(Verdict(bad, des).err)
    ensures Skipped(bad, des)
  {
    forall before, after | AllFrames(before + [bad] + after)
      ensures Delivered(Concat(before + [bad] + after), des) == Delivered(Concat(before + after), des)
    {
      BadFrameLeavesNoTrace(before, bad, after, des);
    }
  }

  lemma {:induction false} ExpectedEnds<T>(before: seq<Bytes>, bad: Bytes, after: seq<Bytes>, des: Deserializer<T>)
    requires Fatal(Verdict(bad, des))
    ensures Expected(before + [bad] + after, des) == Expected(before, des)
    decreases |before|
  {
    if before != [] {
      assert (before + [bad] + after)[1..] == before[1..] + [bad] + after;
      ExpectedEnds(before[1..], bad, after, des);
    }
  }

  lemma EndsIs<T(!new)>(bad: Bytes, des: Deserializer<T>)
    requires Fatal(Verdict(bad, des))
    ensures Ends(bad, des)
  {
    forall before, after | AllFrames(before + [bad] + after)
      ensures Delivered(Concat(before + [bad] + after), des) == Delivered(Concat(before), des)
    {
      var all := before + [bad] + after;
      assert forall i | 0 <= i < |all| :: all[i] in all;
      assert forall i | 0 <= i < |before| :: before[i] in all;
      DeliveredFrames(all, des);
      DeliveredFrames(before, des);
      ExpectedEnds(before, bad, after, des);
    }
  }

  // ---- Any stream ---------------------------------------------------------

  /** The stream goes on with a whole packet: signature 0xF7, and a size of at least four that it has. */
  predicate Starts(s: Bytes) {
    |s| >= 4 && s[0] == 0xF7 && 4 <= U16(s, 2) <= |s|
  }

  lemma StartsIff(s: Bytes)
    ensures Starts(s) ==> var n := U16(s, 2); RawAt(s) == Frame(s[..n], s[n..]) && WellFormed(s[..n])
    ensures !Starts(s) ==> RawAt(s).Bad?
  {
    hide Get16, U16;
    if |s| >= 4 {
      GetIs16(s, 2);
      if Starts(s) {
        GetIs16(s[..U16(s, 2)], 2);
        SameNumber(s, U16(s, 2));
      }
    }
  }

  lemma SameNumber(s: Bytes, n: nat)
    requires 4 <= n <= |s|
    ensures U16(s[..n], 2) == U16(s, 2)
  {
  }

  /** Why reading stops: the end of the stream, a packet that is cut short, or something that is no packet. */
  lemma StopsBecause(s: Bytes)
    requires !Starts(s)
    ensures RawAt(s).Bad?
    ensures RawAt(s).err ==
      if s == [] then ErrEOF
      else if |s| >= 4 && s[0] == 0xF7 && U16(s, 2) > |s| then ErrUnexpectedEOF
      else ErrNoProtocolSig
  {
    hide Get16, U16;
    if |s| >= 4 {
      GetIs16(s, 2);
    }
  }

  /** What any stream delivers: its longest front of whole packets, up to the first that ends the connection. */
  lemma {:induction false} DeliveredIs<T>(s: Bytes, des: Deserializer<T>) returns (frames: seq<Bytes>, rest: Bytes)
    ensures s == Concat(frames) + rest && !Starts(rest)
    ensures forall i | 0 <= i < |frames| :: WellFormed(frames[i])
    ensures Delivered(s, des) == Expected(frames, des)
    decreases |s|
  {
    hide RawAt, WellFormed, U16, Delivered, Expected, Concat;
    StartsIff(s);
    if Starts(s) {
      var first, after := s[..U16(s, 2)], s[U16(s, 2)..];
      var more;
      more, rest := DeliveredIs(after, des);
      frames := [first] + more;
      OneMore(first, more, des);
      RawIsFirst(s, des);
      Glue(s, U16(s, 2), Concat(more), rest);
    } else {
      frames, rest := [], s;
      NoMore(s, des);
      assert [] + s == s;
    }
  }

  lemma Glue(s: Bytes, n: nat, mid: Bytes, rest: Bytes)
    requires n <= |s| && s[n..] == mid + rest
    ensures s == (s[..n] + mid) + rest
  {
  }

  lemma OneMore<T>(first: Bytes, more: seq<Bytes>, des: Deserializer<T>)
    ensures Concat([first] + more) == first + Concat(more)
    ensures Expected([first] + more, des) ==
            var e := Verdict(first, des);
            if Fatal(e) then [] else (if e.Packet? then [e.packet] else []) + Expected(more, des)
  {
    assert ([first] + more)[1..] == more;
  }

  lemma RawIsFirst<T>(s: Bytes, des: Deserializer<T>)
    requires RawAt(s).Frame?
    ensures Delivered(s, des) ==
            var e := Verdict(RawAt(s).bytes, des);
            if Fatal(e) then [] else (if e.Packet? then [e.packet] else []) + Delivered(RawAt(s).rest, des)
  {
  }

  lemma NoMore<T>(s: Bytes, des: Deserializer<T>)
    requires RawAt(s).Bad?
    ensures Concat([]) == [] && Delivered(s, des) == [] == Expected([], des)
  {
  }

  // ---- TimeSlot -----------------------------------------------------------

  /** A TimeSlot that fails to decode, whatever is wrong with it, is skipped. */
  lemma BadTimeSlotIsSkipped(bad: Bytes, crc: TimeSlots.Checksum32)
    requires TimeSlots.Decode(bad, crc).Failed?
    ensures Skipped(bad, b => TimeSlots.Decode(b, crc))
  {
    hide TimeSlots.DecodeActions, Get16, Skipped;
    if |bad| >= 8 && 8 <= Get16(bad[2..]) as int <= |bad| {
      TimeSlots.ActionsErr(bad[8..], Get16(bad[2..]) - 8);
    }
    SkippedIs(bad, b => TimeSlots.Decode(b, crc));
  }

  // ---- SlotInfo, StartLag and Desync --------------------------------------

  lemma {:induction false} SlotsNeverFail(b: Bytes, n: nat, slotSize: int)
    ensures !PacketReuse.DecodeSlots(b, n, slotSize).Failed?
    decreases n
  {
    if n > 0 && |b| >= PacketReuse.SlotWidth(slotSize) {
      SlotsNeverFail(b[PacketReuse.SlotWidth(slotSize)..], n - 1, slotSize);
    }
  }

  lemma BadSlotInfoIsSkipped(bad: Bytes)
    requires PacketReuse.DecodeSlotInfo(bad).Failed?
    ensures Skipped(bad, PacketReuse.DecodeSlotInfo)
  {
    hide PacketReuse.DecodeSlots, Get16, Get32, Skipped, PacketReuse.Quot;
    if |bad| >= 7 {
      var n := bad[6] as int;
      var slotSize := if n > 0 then PacketReuse.Quot(Get16(bad[4..]) - 7, n) else 9;
      SlotsNeverFail(bad[7..], n, slotSize);
      assert bad[4..][3..] == bad[7..];
    }
    SkippedIs(bad, PacketReuse.DecodeSlotInfo);
  }

  lemma BadStartLagIsSkipped(bad: Bytes)
    requires MessageReuse.DecodeStartLag(bad).Failed?
    ensures Skipped(bad, MessageReuse.DecodeStartLag)
  {
    SkippedIs(bad, MessageReuse.DecodeStartLag);
  }

  lemma BadDesyncIsSkipped(bad: Bytes)
    requires MessageReuse.DecodeDesync(bad).Failed?
    ensures Skipped(bad, MessageReuse.DecodeDesync)
  {
    SkippedIs(bad, MessageReuse.DecodeDesync);
  }

  // ---- Message ------------------------------------------------------------

  /** A chat message that is long enough, and whose text does not end within the packet. */
  predicate Unterminated(b: Bytes)
    requires |b| >= 5
  {
    var n := b[4] as int;
    && |b| >= 8 + n
    && ((b[6 + n] == 0x10 && NulFree(b[7 + n..])) || (b[6 + n] == 0x20 && |b| >= 12 + n && NulFree(b[11 + n..])))
  }

  lemma NoTerminatorIff(b: Bytes)
    ensures TakeCString(b).Failed? <==> NulFree(b)
    ensures TakeCString(b).Failed? ==> TakeCString(b) == Failed(ErrNoCStringTerminatorFound)
    ensures !TakeCString(b).Panics?
  {
    assert b[..|b|] == b;
  }

  lemma MessageVerdict(b: Bytes)
    requires WellFormed(b)
    ensures Fatal(Verdict(b, MessageReuse.DecodeMessage)) <==> |b| >= 8 && Unterminated(b)
  {
    hide TakeCString, NulFree, Get32, NulIndex;
    assert PacketReuse.PacketSize(b) == |b|;
    if |b| >= 8 {
      var n := b[4] as int;
      if |b| >= 8 + n {
        assert b[4..][3 + n..] == b[7 + n..];
        NoTerminatorIff(b[7 + n..]);
        if |b| >= 12 + n {
          assert b[7 + n..][4..] == b[11 + n..];
          NoTerminatorIff(b[11 + n..]);
        }
      }
    }
  }

  /** A message that fails to decode ends the connection exactly if its text has no terminator. */
  lemma BadMessageEndsIff(bad: Bytes)
    requires WellFormed(bad) && MessageReuse.DecodeMessage(bad).Failed?
    ensures |bad| >= 8 && Unterminated(bad) ==> Ends(bad, MessageReuse.DecodeMessage)
    ensures !(|bad| >= 8 && Unterminated(bad)) ==> Skipped(bad, MessageReuse.DecodeMessage)
  {
    hide MessageReuse.DecodeMessage, Unterminated, Skipped, Ends;
    MessageVerdict(bad);
    if |bad| >= 8 && Unterminated(bad) {
      EndsIs(bad, MessageReuse.DecodeMessage);
    } else {
      SkippedIs(bad, MessageReuse.DecodeMessage);
    }
  }
}
