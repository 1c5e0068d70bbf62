// The action queue of network/lobby/game.go and its cutting into TimeSlots that fit a packet.

module Fragments {
  import opened Wire
  import opened TimeSlots

  const MTU: nat := 1200

  type Actions = seq<PlayerAction>

  function Budget(actions: Actions): nat {
    if actions == [] then 0 else |actions[0].data| + 3 + Budget(actions[1..])
  }

  predicate WithinMtu(actions: Actions) {
    Budget(actions) + 7 <= MTU
  }

  /** onGameAction lets no longer action into the queue. */
  predicate Small(a: PlayerAction) {
    |a.data| <= MTU - 10
  }

  predicate AllSmall(actions: Actions) {
    forall a | a in actions :: Small(a)
  }

  lemma {:induction false} BudgetAppend(actions: Actions, more: Actions)
    ensures Budget(actions + more) == Budget(actions) + Budget(more)
    decreases |actions|
  {
    if actions == [] {
      assert actions + more == more;
    } else {
      assert (actions + more)[1..] == actions[1..] + more;
      BudgetAppend(actions[1..], more);
    }
  }

  lemma BudgetNext(actions: Actions, i: nat)
    requires i < |actions|
    ensures Budget(actions[..i + 1]) == Budget(actions[..i]) + |actions[i].data| + 3
  {
    assert actions[..i + 1] == actions[..i] + [actions[i]];
    BudgetAppend(actions[..i], [actions[i]]);
    assert [actions[i]][1..] == [];
  }

  /** A longer stretch of the queue costs more. */
  lemma BudgetGrows(actions: Actions, i: nat, j: nat)
    requires i <= j <= |actions|
    ensures Budget(actions[..i]) <= Budget(actions[..j])
    ensures Budget(actions[i..j]) <= Budget(actions[..j])
  {
    assert actions[..j] == actions[..i] + actions[i..j];
    BudgetAppend(actions[..i], actions[i..j]);
  }

  // ---- splitActions -------------------------------------------------------

  /** The first k actions fit, and no more than those. */
  predicate Splits(actions: Actions, k: nat) {
    && k <= |actions|
    && WithinMtu(actions[..k])
    && (k < |actions| ==> !WithinMtu(actions[..k + 1]))
  }

  lemma SplitsUnique(actions: Actions, j: nat, k: nat)
    requires Splits(actions, j) && Splits(actions, k)
    ensures j == k
  {
    if j < k {
      BudgetGrows(actions, j + 1, k);
    } else if k < j {
      BudgetGrows(actions, k + 1, j);
    }
  }

  lemma {:induction false} SplitsExists(actions: Actions, n: nat)
    requires n <= |actions|
    ensures exists k: nat :: Splits(actions[..n], k)
  {
    if n == 0 {
      assert Splits(actions[..0], 0);
    } else {
      SplitsExists(actions, n - 1);
      var k: nat :| Splits(actions[..n - 1], k);
      assert actions[..n][..k] == actions[..n - 1][..k];
      if k < n - 1 {
        assert actions[..n][..k + 1] == actions[..n - 1][..k + 1];
        assert Splits(actions[..n], k);
      } else if WithinMtu(actions[..n]) {
        assert actions[..n][..n] == actions[..n];
        assert Splits(actions[..n], n);
      } else {
        assert actions[..n][..k + 1] == actions[..n];
        assert Splits(actions[..n], k);
      }
    }
  }

  ghost function SplitLen(actions: Actions): (k: nat)
    ensures Splits(actions, k)
  {
    SplitsExists(actions, |actions|);
    assert actions[..|actions|] == actions;
    var k: nat :| Splits(actions, k);
    k
  }

  /** A cut takes something off a non-empty queue exactly when the first action is small. */
  lemma CutProgressIff(actions: Actions)
    requires actions != []
    ensures SplitLen(actions) > 0 <==> Small(actions[0])
  {
    BudgetNext(actions, 0);
    var k := SplitLen(actions);
    if k > 0 {
      BudgetGrows(actions, 1, k);
    }
  }

  // ---- The send loop ------------------------------------------------------

  /** The queue after n cuts. */
  ghost function Rest(actions: Actions, n: nat): Actions
    decreases n
  {
    if n == 0 then actions else Rest(actions[SplitLen(actions)..], n - 1)
  }

  lemma {:induction false} OversizedStays(actions: Actions, a: PlayerAction, n: nat)
    requires a in actions && !Small(a)
    ensures a in Rest(actions, n)
    decreases n
  {
    if n > 0 {
      var i :| 0 <= i < |actions| && actions[i] == a;
      var k := SplitLen(actions);
      BudgetNext(actions, i);
      if i < k {
        BudgetGrows(actions, i + 1, k);
      }
      assert actions[k..][i - k] == a;
      OversizedStays(actions[k..], a, n - 1);
    }
  }

  lemma {:induction false} SmallRunsOut(actions: Actions)
    requires AllSmall(actions)
    ensures Rest(actions, |actions|) == []
    decreases |actions|
  {
    if actions != [] {
      CutProgressIff(actions);
      var rest := actions[SplitLen(actions)..];
      SmallRunsOut(rest);
      StaysEmpty(rest, |rest|, |actions| - 1);
    }
  }

  lemma {:induction false} StaysEmpty(actions: Actions, m: nat, n: nat)
    requires m <= n && Rest(actions, m) == []
    ensures Rest(actions, n) == []
    decreases n
  {
    if m > 0 {
      StaysEmpty(actions[SplitLen(actions)..], m - 1, n - 1);
    } else if n > 0 {
      StaysEmpty(actions[SplitLen(actions)..], 0, n - 1);
    }
  }

  /** The send loop comes to an end exactly for the queues that onGameAction can build. */
  lemma SendEndsIff(actions: Actions)
    ensures (exists n: nat :: Rest(actions, n) == []) <==> AllSmall(actions)
  {
    if AllSmall(actions) {
      SmallRunsOut(actions);
    } else {
      var a :| a in actions && !Small(a);
      forall n: nat
        ensures Rest(actions, n) != []
      {
        OversizedStays(actions, a, n);
      }
    }
  }

  /** The TimeSlots that one tick sends. */
  ghost function Sent(actions: Actions, inc: UInt16): seq<TimeSlot>
    requires AllSmall(actions)
    decreases |actions|
  {
    var k := SplitLen(actions);
    if k == |actions| then
      [TimeSlot(false, inc, actions)]
    else
      CutProgressIff(actions);
      [TimeSlot(true, inc, actions[..k])] + Sent(actions[k..], inc)
  }

  function Joined(slots: seq<TimeSlot>): Actions {
    if slots == [] then [] else slots[0].actions + Joined(slots[1..])
  }

  /** The TimeSlots carry the queue in order; all but the last are marked as fragments; all fit. */
  lemma {:induction false} SentCarriesQueue(actions: Actions, inc: UInt16)
    requires AllSmall(actions)
    ensures var sent := Sent(actions, inc);
      && sent != [] && Joined(sent) == actions
      && (forall i | 0 <= i < |sent| :: sent[i].fragment <==> i < |sent| - 1)
      && (forall i | 0 <= i < |sent| :: sent[i].timeIncrementMS == inc && WithinMtu(sent[i].actions))
    decreases |actions|
  {
    var k := SplitLen(actions);
    if k == |actions| {
      assert actions[..k] == actions;
      assert Joined([TimeSlot(false, inc, actions)][1..]) == [];
    } else {
      CutProgressIff(actions);
      SentCarriesQueue(actions[k..], inc);
      var sent, more := Sent(actions, inc), Sent(actions[k..], inc);
      assert sent[1..] == more;
      assert forall i | 1 <= i < |sent| :: sent[i] == more[i - 1];
    }
  }

  lemma {:induction false} BodySize(actions: Actions)
    ensures |ActionsBytes(actions)| == Budget(actions)
    decreases |actions|
  {
    if actions != [] {
      BodySize(actions[1..]);
    }
  }

  /** A packet can be one byte longer than the MTU: splitActions counts 7 bytes of header, Serialize writes 8. */
  lemma PacketBound(ts: TimeSlot, crc: Checksum32)
    ensures |Encode(ts, crc)| == Budget(ts.actions) + 8
    ensures WithinMtu(ts.actions) <==> |Encode(ts, crc)| <= 1201
    ensures WithinMtu(ts.actions) ==> Fits(ts)
  {
    BodySize(ts.actions);
  }

  /** No other way of cutting the queue needs fewer packets. */
  lemma {:induction false} SentIsShortest(actions: Actions, inc: UInt16, parts: seq<TimeSlot>)
    requires AllSmall(actions) && parts != [] && Joined(parts) == actions
    requires forall i | 0 <= i < |parts| :: WithinMtu(parts[i].actions)
    ensures |Sent(actions, inc)| <= |parts|
  {
    SuffixIsShortest(actions, inc, parts, 0);
    assert actions[0..] == actions;
  }

  lemma {:induction false} SuffixIsShortest(actions: Actions, inc: UInt16, parts: seq<TimeSlot>, j: nat)
    requires AllSmall(actions) && j <= |actions| && Joined(parts) == actions
    requires forall i | 0 <= i < |parts| :: WithinMtu(parts[i].actions)
    ensures |Sent(actions[j..], inc)| <= if parts == [] then 1 else |parts|
    decreases |parts|
  {
    hide Sent, AllSmall, WithinMtu, Joined, Splits;
    var b := actions[j..];
    SuffixSmall(actions, j);
    var k := SplitLen(b);
    SentCount(b, inc);
    if k < |b| {
      EmptyQueueIsShort(actions, parts, j);
      var first, rest := parts[0].actions, Joined(parts[1..]);
      JoinedRest(actions, parts);
      SuffixSmall(actions, |first|);
      if |first| <= j {
        SuffixIsShortest(rest, inc, parts[1..], j - |first|);
        assert rest[j - |first|..] == b;
        EmptyQueueIsShort(rest, parts[1..], j - |first|);
      } else {
        var m := |first| - j;
        FrontWithin(actions, first, j);
        CutTakesAll(b, m, k);
        SuffixIsShortest(rest, inc, parts[1..], k - m);
        assert rest[k - m..] == b[k..];
        EmptyQueueIsShort(rest, parts[1..], k - m);
      }
    }
  }

  lemma SuffixSmall(actions: Actions, j: nat)
    requires AllSmall(actions) && j <= |actions|
    ensures AllSmall(actions[j..])
  {
  }

  lemma SentCount(actions: Actions, inc: UInt16)
    requires AllSmall(actions)
    ensures var k := SplitLen(actions);
      && k <= |actions| && Splits(actions, k) && AllSmall(actions[k..])
      && |Sent(actions, inc)| == if k == |actions| then 1 else 1 + |Sent(actions[k..], inc)|
  {
  }

  lemma JoinedRest(actions: Actions, parts: seq<TimeSlot>)
    requires parts != [] && Joined(parts) == actions
    ensures |parts[0].actions| <= |actions| && parts[0].actions == actions[..|parts[0].actions|]
    ensures Joined(parts[1..]) == actions[|parts[0].actions|..]
  {
  }

  /** What one packet carries from j on costs no more than all it carries. */
  lemma FrontWithin(actions: Actions, first: Actions, j: nat)
    requires j <= |first| <= |actions| && first == actions[..|first|] && WithinMtu(first)
    ensures WithinMtu(actions[j..][..|first| - j])
  {
    assert first[j..|first|] == actions[j..|first|] == actions[j..][..|first| - j];
    assert first[..|first|] == first;
    BudgetGrows(first, j, |first|);
  }

  lemma EmptyQueueIsShort(rest: Actions, parts: seq<TimeSlot>, j: nat)
    requires rest == Joined(parts) && j < |rest|
    ensures parts != []
  {
  }

  lemma CutTakesAll(actions: Actions, m: nat, k: nat)
    requires m <= |actions| && WithinMtu(actions[..m]) && Splits(actions, k)
    ensures m <= k
  {
    if k < m {
      BudgetGrows(actions, k + 1, m);
    }
  }

  // ---- The queue object ---------------------------------------------------

  class ActionQueue {
    var actions: Actions

    constructor ()
      ensures actions == []
    {
      actions := [];
    }

    /** onGameAction: a longer action gets its sender kicked instead. */
    method OnGameAction(pid: Byte, data: Bytes) returns (kicked: bool)
      modifies this
      ensures kicked <==> |data| > 1190
      ensures actions == if kicked then old(actions) else old(actions) + [PlayerAction(pid, data)]
      ensures old(AllSmall(actions)) ==> AllSmall(actions)
    {
      if |data| > MTU - 10 {
        return true;
      }
      actions := actions + [PlayerAction(pid, data)];
      return false;
    }

    method SplitActions() returns (res: Actions, fragment: bool)
      modifies this
      ensures |res| == SplitLen(old(actions))
      ensures res == old(actions)[..|res|] && actions == old(actions)[|res|..]
      ensures fragment == (actions != [])
    {
      var total := 0;
      for i := 0 to |actions|
        invariant actions == old(actions)
        invariant total == Budget(actions[..i]) && total + 7 <= MTU
      {
        BudgetNext(actions, i);
        var size := |actions[i].data| + 3;
        if total + size + 7 > MTU {
          SplitsUnique(actions, i, SplitLen(actions));
          res, actions := actions[..i], actions[i..];
          return res, true;
        }
        total := total + size;
      }
      SplitsUnique(actions, |actions|, SplitLen(actions));
      res, actions, fragment := actions, [], false;
    }

    /** The send loop of gameloop: at least one TimeSlot per tick. */
    method Send(inc: UInt16) returns (sent: seq<TimeSlot>)
      requires AllSmall(actions)
      modifies this
      ensures actions == [] && sent == Sent(old(actions), inc)
    {
      sent := [];
      var send := true;
      while send
        invariant AllSmall(actions)
        invariant send ==> sent + Sent(actions, inc) == Sent(old(actions), inc)
        invariant !send ==> actions == [] && sent == Sent(old(actions), inc)
        decreases send, |actions|
      {
        ghost var queue := actions;
        if queue != [] {
          CutProgressIff(queue);
        }
        var res, fragment := SplitActions();
        assert queue[..|queue|] == queue;
        sent := sent + [TimeSlot(fragment, inc, res)];
        send := |actions| > 0;
      }
    }
  }
}
