// The read-preferring lock of network/rwmutex.go, stepped by any number of threads.

module ReadLock {
  import opened Options

  type Thread = nat

  const UINT32: nat := 0x1_0000_0000

  /** Where a thread stands between rmutex.Lock() and rmutex.Unlock(). */
  datatype Place =
    | Arriving   // RLock, rcount not yet counted up
    | Counted    // RLock, counted up
    | Waiting    // RLock, first reader: at m.Lock()
    | Admitted   // RLock, done but for rmutex.Unlock()
    | Leaving    // RUnlock, rcount not yet counted down
    | Dropped    // RUnlock, counted down
    | Released   // RUnlock, done but for rmutex.Unlock()

  datatype Inside = Inside(thread: Thread, place: Place)

  /** `locked` is the embedded mutex, `inside` the holder of rmutex. `writer` is the thread whose m.Lock()
      has returned and `readers` holds every read lock that RLock has granted and RUnlock not taken back. */
  datatype Lock = Lock(locked: bool, rcount: nat, inside: Option<Inside>, writer: Option<Thread>, readers: multiset<Thread>)

  const FREE: Lock := Lock(false, 0, None, None, multiset{})

  datatype Event =
    | RLock(t: Thread)
    | RUnlock(t: Thread)
    | Go(t: Thread)
    | WLock(t: Thread)
    | WUnlock(t: Thread)

  /** The next step of the thread inside rmutex. It waits only at m.Lock(). */
  ghost predicate StepInside(s: Lock, s': Lock)
    requires s.inside.Some?
  {
    var t := s.inside.value.thread;
    match s.inside.value.place
    case Arriving =>
      s' == s.(rcount := (s.rcount + 1) % UINT32, inside := Some(Inside(t, Counted)))
    case Counted =>
      s' == s.(inside := Some(Inside(t, if s.rcount == 1 then Waiting else Admitted)))
    case Waiting =>
      !s.locked && s' == s.(locked := true, inside := Some(Inside(t, Admitted)))
    case Admitted =>
      s' == s.(inside := None, readers := s.readers + multiset{t})
    case Leaving =>
      s' == s.(rcount := (s.rcount - 1) % UINT32, inside := Some(Inside(t, Dropped)))
    case Dropped =>
      s' == s.(locked := s.locked && s.rcount != 0, inside := Some(Inside(t, Released)))
    case Released =>
      s' == s.(inside := None)
  }

  /** The step would panic: RUnlock finds rcount 0, or unlocks an unlocked mutex. */
  predicate Panics(s: Lock) {
    s.inside.Some? &&
    match s.inside.value.place
    case Leaving => s.rcount == 0
    case Dropped => s.rcount == 0 && !s.locked
    case _ => false
  }

  /** RUnlock is called only by a holder, and fewer than 2^32 read locks are held at once. */
  ghost predicate Next(s: Lock, e: Event, s': Lock) {
    match e
    case RLock(t) =>
      s.inside.None? && |s.readers| < UINT32 - 1 && s' == s.(inside := Some(Inside(t, Arriving)))
    case RUnlock(t) =>
      s.inside.None? && t in s.readers &&
      s' == s.(inside := Some(Inside(t, Leaving)), readers := s.readers - multiset{t})
    case Go(t) =>
      s.inside.Some? && s.inside.value.thread == t && StepInside(s, s')
    case WLock(t) =>
      !s.locked && s' == s.(locked := true, writer := Some(t))
    case WUnlock(t) =>
      s.writer == Some(t) && s' == s.(locked := false, writer := None)
  }

  ghost predicate IsRun(states: seq<Lock>, events: seq<Event>) {
    && |states| == |events| + 1
    && states[0] == FREE
    && forall i | 0 <= i < |events| :: Next(states[i], events[i], states[i + 1])
  }

  // ---- Invariant ----------------------------------------------------------

  /** The readers, not a writer, hold the embedded mutex. */
  predicate ReadersHold(s: Lock) {
    if s.inside.None? then s.rcount > 0
    else
      match s.inside.value.place
      case Arriving | Released => s.rcount > 0
      case Counted => s.rcount > 1
      case Waiting => false
      case Admitted | Leaving | Dropped => true
  }

  predicate CountMatches(s: Lock) {
    var granted := |s.readers|;
    && s.rcount < UINT32
    && if s.inside.None? then s.rcount == granted
       else
         match s.inside.value.place
         case Arriving => s.rcount == granted && granted < UINT32 - 1
         case Counted => s.rcount == granted + 1
         case Waiting => s.rcount == 1 && granted == 0
         case Admitted | Leaving => s.rcount == granted + 1
         case Dropped | Released => s.rcount == granted
  }

  predicate Inv(s: Lock) {
    && CountMatches(s)
    && s.locked == (ReadersHold(s) || s.writer.Some?)
    && !(ReadersHold(s) && s.writer.Some?)
  }

  lemma InvStep(s: Lock, e: Event, s': Lock)
    requires Inv(s) && Next(s, e, s')
    ensures Inv(s')
  {
  }

  lemma {:induction false} RunKeepsInv(states: seq<Lock>, events: seq<Event>, i: nat)
    requires IsRun(states, events) && i < |states|
    ensures Inv(states[i])
  {
    if i > 0 {
      RunKeepsInv(states, events, i - 1);
      InvStep(states[i - 1], events[i - 1], states[i]);
    }
  }

  // ---- What the lock is for -----------------------------------------------

  /** No reader is admitted together with a writer; rcount counts the admitted readers; nothing panics. */
  lemma RunExcludes(states: seq<Lock>, events: seq<Event>, i: nat)
    requires IsRun(states, events) && i < |states|
    ensures var s := states[i];
      && (s.writer.Some? ==> s.readers == multiset{})
      && (s.inside.None? ==> s.rcount == |s.readers|)
      && !Panics(s)
  {
    RunKeepsInv(states, events, i);
    var s := states[i];
    if s.readers != multiset{} {
      var t :| t in s.readers;
      assert |s.readers - multiset{t}| == |s.readers| - 1;
    }
  }

  /** While somebody reads, nobody inside rmutex waits for the writer mutex: a nested RLock is never blocked,
      neither at m.Lock() nor behind a reader that is. */
  lemma NestedReadNeverWaits(states: seq<Lock>, events: seq<Event>, i: nat, t: Thread)
    requires IsRun(states, events) && i < |states| && t in states[i].readers
    ensures states[i].inside.Some? ==> states[i].inside.value.place != Waiting
    ensures states[i].inside.Some? ==>
      exists s' :: Next(states[i], Go(states[i].inside.value.thread), s')
  {
    RunKeepsInv(states, events, i);
    var s := states[i];
    assert |s.readers - multiset{t}| == |s.readers| - 1;
    if s.inside.Some? {
      var s' := InsideCanStep(s);
      assert Next(s, Go(s.inside.value.thread), s');
    }
  }

  lemma InsideCanStep(s: Lock) returns (s': Lock)
    requires s.inside.Some? && s.inside.value.place != Waiting
    ensures StepInside(s, s')
  {
    var t := s.inside.value.thread;
    match s.inside.value.place
    case Arriving => s' := s.(rcount := (s.rcount + 1) % UINT32, inside := Some(Inside(t, Counted)));
    case Counted => s' := s.(inside := Some(Inside(t, if s.rcount == 1 then Waiting else Admitted)));
    case Admitted => s' := s.(inside := None, readers := s.readers + multiset{t});
    case Leaving => s' := s.(rcount := (s.rcount - 1) % UINT32, inside := Some(Inside(t, Dropped)));
    case Dropped => s' := s.(locked := s.locked && s.rcount != 0, inside := Some(Inside(t, Released)));
    case Released => s' := s.(inside := None);
  }

  /** How many steps of its holder rmutex is away from being free. */
  function StepsLeft(s: Lock): nat {
    if s.inside.None? then 0
    else
      match s.inside.value.place
      case Arriving => 4
      case Counted | Leaving => 3
      case Waiting | Dropped => 2
      case Admitted | Released => 1
  }

  /** Every step inside brings rmutex closer to being free, so a nested RLock gets it. */
  lemma InsideIsFinite(s: Lock, t: Thread, s': Lock)
    requires Next(s, Go(t), s')
    ensures StepsLeft(s') < StepsLeft(s)
  {
  }

  /** With nobody inside rmutex, a writer can enter exactly if nobody reads or writes: the last reader lets go. */
  lemma WriterEntersIff(states: seq<Lock>, events: seq<Event>, i: nat, t: Thread)
    requires IsRun(states, events) && i < |states| && states[i].inside.None?
    ensures (exists s' :: Next(states[i], WLock(t), s')) <==>
            states[i].writer.None? && states[i].readers == multiset{}
  {
    RunKeepsInv(states, events, i);
    var s := states[i];
    NoneRead(s.readers);
    if !s.locked {
      assert Next(s, WLock(t), s.(locked := true, writer := Some(t)));
    }
  }

  lemma NoneRead(readers: multiset<Thread>)
    ensures |readers| == 0 <==> readers == multiset{}
  {
    if readers != multiset{} {
      var t :| t in readers;
      assert |readers - multiset{t}| == |readers| - 1;
    }
  }

  lemma RunMore(states: seq<Lock>, events: seq<Event>, e: Event, s': Lock)
    requires IsRun(states, events) && Next(states[|events|], e, s')
    ensures IsRun(states + [s'], events + [e])
  {
  }

  /** Where a reader gets to by its own steps when no writer is in the way: it is counted once, and rmutex is free. */
  lemma ReaderEnters(states: seq<Lock>, events: seq<Event>, t: Thread) returns (states': seq<Lock>, events': seq<Event>)
    requires IsRun(states, events)
    requires var s := states[|events|]; s.inside.None? && s.writer.None? && |s.readers| < UINT32 - 1
    ensures IsRun(states', events') && events <= events'
    ensures forall i | |events| <= i < |events'| :: events'[i] == RLock(t) || events'[i] == Go(t)
    ensures var s, s' := states[|events|], states'[|events'|];
      s'.inside.None? && s'.readers == s.readers + multiset{t} && s'.writer.None?
  {
    RunKeepsInv(states, events, |events|);
    var s := states[|events|];
    var s1 := s.(inside := Some(Inside(t, Arriving)));
    RunMore(states, events, RLock(t), s1);
    var s2 := s1.(rcount := (s.rcount + 1) % UINT32, inside := Some(Inside(t, Counted)));
    RunMore(states + [s1], events + [RLock(t)], Go(t), s2);
    states', events' := states + [s1] + [s2], events + [RLock(t)] + [Go(t)];
    var s3 := s2.(inside := Some(Inside(t, if s2.rcount == 1 then Waiting else Admitted)));
    RunMore(states', events', Go(t), s3);
    states', events' := states' + [s3], events' + [Go(t)];
    var s4 := s3;
    if s2.rcount == 1 {
      s4 := s3.(locked := true, inside := Some(Inside(t, Admitted)));
      RunMore(states', events', Go(t), s4);
      states', events' := states' + [s4], events' + [Go(t)];
    }
    var s5 := s4.(inside := None, readers := s4.readers + multiset{t});
    RunMore(states', events', Go(t), s5);
    states', events' := states' + [s5], events' + [Go(t)];
  }
}
