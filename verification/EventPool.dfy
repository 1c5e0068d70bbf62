// The free list of pooled events in network/events.go (newEvent, freeEvent), stepped by any number
// of Fire calls that interleave at their atomic loads and compare-and-swaps.

module EventPool {
  import opened BitSets

  type Call = nat

  const POOL: nat := 16

  /** Where a Fire call stands; `m` is the mask that its last atomic load returned. */
  datatype Phase =
    | Loaded(m: BitSet32)             // newEvent, before the compare-and-swap
    | Owns(slot: nat)                 // firing with a pooled event
    | OwnsHeap                        // firing with an event of its own
    | Cleared(slot: nat)              // freeEvent, event zeroed
    | Releasing(slot: nat, m: BitSet32) // freeEvent, before the compare-and-swap

  /** `dirty` are the pool entries that are not Event{}. */
  datatype Pool = Pool(mask: BitSet32, dirty: set<nat>, calls: map<Call, Phase>)

  const EMPTY: Pool := Pool(ZERO, {}, map[])

  /** bits.TrailingZeros16(uint16(^m)) from bit b on: the lowest clear bit, or 16. */
  function LowestClear(m: BitSet32, b: nat): (r: nat)
    requires b <= POOL
    ensures b <= r <= POOL
    ensures r < POOL ==> r + 1 !in Members(m)
    ensures forall i: nat | b < i <= r :: i in Members(m)
    decreases POOL - b
  {
    if b == POOL || !Test(m, b + 1) then b else LowestClear(m, b + 1)
  }

  datatype Step =
    | Begin(c: Call)
    | Claim(c: Call)
    | Use(c: Call)
    | Wipe(c: Call)
    | Load(c: Call)
    | Release(c: Call)
    | Return(c: Call)

  /** The slot a call holds, counted until its mask bit is given back. */
  predicate Holds(p: Phase, b: nat) {
    (p.Owns? || p.Cleared? || p.Releasing?) && p.slot == b
  }

  ghost predicate Next(s: Pool, e: Step, s': Pool) {
    match e
    case Begin(c) =>
      c !in s.calls && s' == s.(calls := s.calls[c := Loaded(s.mask)])
    case Claim(c) =>
      && c in s.calls && s.calls[c].Loaded?
      && var m := s.calls[c].m;
         var b := LowestClear(m, 0);
         if b < POOL && s.mask == m then
           s' == s.(mask := Insert(m, b + 1), calls := s.calls[c := Owns(b)])
         else
           s' == s.(calls := s.calls[c := OwnsHeap])
    case Use(c) =>
      c in s.calls && s.calls[c].Owns? && s' == s.(dirty := s.dirty + {s.calls[c].slot})
    case Wipe(c) =>
      && c in s.calls && s.calls[c].Owns?
      && s' == s.(dirty := s.dirty - {s.calls[c].slot}, calls := s.calls[c := Cleared(s.calls[c].slot)])
    case Load(c) =>
      && c in s.calls && s.calls[c].Cleared?
      && s' == s.(calls := s.calls[c := Releasing(s.calls[c].slot, s.mask)])
    case Release(c) =>
      && c in s.calls && s.calls[c].Releasing? && s.calls[c].slot < POOL
      && var b := s.calls[c].slot;
         if s.mask == s.calls[c].m then
           s' == s.(mask := Clear(s.mask, b + 1), calls := s.calls - {c})
         else
           s' == s.(calls := s.calls[c := Cleared(b)])
    case Return(c) =>
      c in s.calls && s.calls[c].OwnsHeap? && s' == s.(calls := s.calls - {c})
  }

  ghost predicate IsRun(states: seq<Pool>, steps: seq<Step>) {
    && |states| == |steps| + 1
    && states[0] == EMPTY
    && forall i | 0 <= i < |steps| :: Next(states[i], steps[i], states[i + 1])
  }

  ghost predicate Held(s: Pool, b: nat) {
    exists c | c in s.calls :: Holds(s.calls[c], b)
  }

  ghost predicate Exclusive(s: Pool) {
    forall c, d, b: nat | c in s.calls && d in s.calls && Holds(s.calls[c], b) && Holds(s.calls[d], b) :: c == d
  }

  ghost predicate Inv(s: Pool) {
    && Exclusive(s)
    && (forall b: nat :: Held(s, b) <==> b + 1 in Members(s.mask) && b < POOL)
    && (forall b | b in s.dirty :: exists c | c in s.calls :: s.calls[c] == Owns(b))
  }

  lemma InvStep(s: Pool, e: Step, s': Pool)
    requires Inv(s) && Next(s, e, s')
    ensures Inv(s')
  {
    ExclusiveStep(s, e, s');
    forall b: nat
      ensures Held(s', b) <==> b + 1 in Members(s'.mask) && b < POOL
    {
      HeldStep(s, e, s', b);
    }
    DirtyStep(s, e, s');
  }

  lemma ExclusiveStep(s: Pool, e: Step, s': Pool)
    requires Inv(s) && Next(s, e, s')
    ensures Exclusive(s')
  {
    SlotsInPool(s);
  }

  lemma SlotsInPool(s: Pool)
    requires Inv(s)
    ensures forall c, b: nat | c in s.calls && Holds(s.calls[c], b) :: b < POOL && b + 1 in Members(s.mask)
  {
    forall c, b: nat | c in s.calls && Holds(s.calls[c], b)
      ensures b < POOL && b + 1 in Members(s.mask)
    {
      assert Held(s, b);
    }
  }

  lemma HeldStep(s: Pool, e: Step, s': Pool, b: nat)
    requires Inv(s) && Next(s, e, s')
    ensures Held(s', b) <==> b + 1 in Members(s'.mask) && b < POOL
  {
    SlotsInPool(s);
    if Held(s', b) {
      var c :| c in s'.calls && Holds(s'.calls[c], b);
      HolderStep(s, e, s', c, b);
    }
    if b + 1 in Members(s'.mask) && b < POOL {
      if b + 1 in Members(s.mask) {
        assert Held(s, b);
        var c :| c in s.calls && Holds(s.calls[c], b);
        assert c in s'.calls && Holds(s'.calls[c], b);
      } else {
        assert Holds(s'.calls[e.c], b);
      }
    }
  }

  lemma HolderStep(s: Pool, e: Step, s': Pool, c: Call, b: nat)
    requires Inv(s) && Next(s, e, s') && c in s'.calls && Holds(s'.calls[c], b)
    ensures b + 1 in Members(s'.mask) && b < POOL
  {
    SlotsInPool(s);
    if c in s.calls && Holds(s.calls[c], b) {
      assert Held(s, b);
    }
  }

  lemma DirtyStep(s: Pool, e: Step, s': Pool)
    requires Inv(s) && Next(s, e, s')
    ensures forall b | b in s'.dirty :: exists c | c in s'.calls :: s'.calls[c] == Owns(b)
  {
    forall b | b in s'.dirty
      ensures exists c | c in s'.calls :: s'.calls[c] == Owns(b)
    {
      if b in s.dirty {
        var c :| c in s.calls && s.calls[c] == Owns(b);
        assert Holds(s.calls[c], b);
        assert s'.calls[c] == Owns(b);
      } else {
        assert s'.calls[e.c] == Owns(b);
      }
    }
  }

  lemma {:induction false} RunKeepsInv(states: seq<Pool>, steps: seq<Step>, i: nat)
    requires IsRun(states, steps) && i < |states|
    ensures Inv(states[i])
  {
    if i > 0 {
      RunKeepsInv(states, steps, i - 1);
      InvStep(states[i - 1], steps[i - 1], states[i]);
    } else {
      EmptyIsZero(ZERO);
    }
  }

  /** No two calls own the same pooled event, and a mask bit is set exactly while one call owns its slot. */
  lemma RunIsExclusive(states: seq<Pool>, steps: seq<Step>, i: nat, c: Call, d: Call, b: nat)
    requires IsRun(states, steps) && i < |states| && b < POOL
    ensures var s := states[i];
      && (c in s.calls && d in s.calls && Holds(s.calls[c], b) && Holds(s.calls[d], b) ==> c == d)
      && (b + 1 in Members(s.mask) <==> exists o | o in s.calls :: Holds(s.calls[o], b))
  {
    RunKeepsInv(states, steps, i);
    assert Held(states[i], b) <==> exists o | o in states[i].calls :: Holds(states[i].calls[o], b);
  }

  /** A pooled event is zero when newEvent hands it out. */
  lemma HandedOutZeroed(states: seq<Pool>, steps: seq<Step>, i: nat, c: Call)
    requires IsRun(states, steps) && i < |steps| && steps[i] == Claim(c)
    requires c in states[i + 1].calls && states[i + 1].calls[c].Owns?
    ensures states[i + 1].calls[c].slot !in states[i + 1].dirty
  {
    var s, s' := states[i], states[i + 1];
    assert Next(s, Claim(c), s');
    RunKeepsInv(states, steps, i);
    DirtyIsHeld(s);
  }

  lemma DirtyIsHeld(s: Pool)
    requires Inv(s)
    ensures forall b | b in s.dirty :: Held(s, b)
  {
    forall b | b in s.dirty
      ensures Held(s, b)
    {
      var c :| c in s.calls && s.calls[c] == Owns(b);
      assert Holds(s.calls[c], b);
    }
  }

  /** Nothing leaks: when every call has returned, every pooled event is free again, and zero. */
  lemma QuietPoolIsFree(states: seq<Pool>, steps: seq<Step>, i: nat)
    requires IsRun(states, steps) && i < |states| && states[i].calls == map[]
    ensures states[i].dirty == {} && forall b: nat | 1 <= b <= 16 :: b !in Members(states[i].mask)
  {
    RunKeepsInv(states, steps, i);
    forall b: nat | 1 <= b <= 16
      ensures b !in Members(states[i].mask)
    {
      assert !Held(states[i], b - 1);
    }
  }

  /** A call gets a pooled event exactly if one was free when it looked and nobody has claimed or freed one since. */
  lemma ClaimTakesIff(states: seq<Pool>, steps: seq<Step>, i: nat, c: Call)
    requires IsRun(states, steps) && i < |steps| && steps[i] == Claim(c)
    ensures c in states[i].calls && states[i].calls[c].Loaded? && c in states[i + 1].calls
    ensures states[i + 1].calls[c].Owns? <==>
            states[i].mask == states[i].calls[c].m && exists b: nat | 1 <= b <= 16 :: b !in Members(states[i].mask)
  {
    assert Next(states[i], Claim(c), states[i + 1]);
    var m := states[i].calls[c].m;
    var b := LowestClear(m, 0);
    if b < 16 {
      assert b + 1 !in Members(m);
    } else {
      assert forall k: nat | 1 <= k <= 16 :: k in Members(m);
    }
  }
}
