// Slots of a lobby (protocol/w3gs/packets.go, SlotData) and the search for a player's slot.

module SlotTable {

  datatype SlotStatus = SlotOpen | SlotClosed | SlotOccupied

  datatype SlotData = SlotData(
    playerID: nat,
    downloadStatus: nat,
    status: SlotStatus,
    computer: bool,
    team: nat,
    color: nat,
    race: nat,
    computerType: nat,
    handicap: nat)

  predicate Seated(slots: seq<SlotData>, pid: nat) {
    exists i | 0 <= i < |slots| :: slots[i].playerID == pid
  }

  predicate IsFirst(slots: seq<SlotData>, pid: nat, sid: nat) {
    && sid < |slots| && slots[sid].playerID == pid
    && forall i | 0 <= i < sid :: slots[i].playerID != pid
  }

  lemma {:induction false} FirstExists(slots: seq<SlotData>, pid: nat)
    requires Seated(slots, pid)
    ensures exists sid: nat :: IsFirst(slots, pid, sid)
  {
    var n := |slots| - 1;
    if Seated(slots[..n], pid) {
      FirstExists(slots[..n], pid);
      var sid: nat :| IsFirst(slots[..n], pid, sid);
      assert IsFirst(slots, pid, sid);
    } else {
      assert forall i | 0 <= i < n :: slots[..n][i] == slots[i];
      assert IsFirst(slots, pid, n);
    }
  }

  /** The slot that pidToSID answers; it panics when there is none. */
  ghost function SidOf(slots: seq<SlotData>, pid: nat): (sid: nat)
    requires Seated(slots, pid)
    ensures IsFirst(slots, pid, sid)
  {
    FirstExists(slots, pid);
    var sid: nat :| IsFirst(slots, pid, sid);
    sid
  }

  /** Lobby.pidToSID */
  method PidToSid(slots: seq<SlotData>, pid: nat) returns (sid: nat)
    requires Seated(slots, pid)
    ensures IsFirst(slots, pid, sid)
    ensures sid == SidOf(slots, pid)
  {
    for i := 0 to |slots|
      invariant forall k | 0 <= k < i :: slots[k].playerID != pid
    {
      if slots[i].playerID == pid {
        return i;
      }
    }
    assert false;
  }
}
