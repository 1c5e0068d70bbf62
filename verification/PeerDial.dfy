// Two hosts of network/peer/host.go that dial each other, possibly at the same time.

/** Accept and Dial run under pmut except while Dial waits for the answer, so the protocol moves in
    the steps below. Timeouts, send errors and Deregister are not part of it. */
module PeerDial {
  import opened Options

  /** The host with the lower player id, and the other one. */
  datatype Side = Low | High

  type ConnId = nat

  datatype EndState = Handshaking | Serving | Closed

  /** `replied`: the accepting host has sent its PeerConnect. */
  datatype Conn = Conn(dialer: Side, replied: bool, dialEnd: EndState, acceptEnd: EndState)

  /** `held` is the connection a host has for its peer, `bit` the peer's bit in its peerset. */
  datatype Host = Host(held: Option<ConnId>, bit: bool)

  datatype State = State(conns: map<ConnId, Conn>, low: Host, high: Host)

  const INITIAL: State := State(map[], Host(None, false), Host(None, false))

  function HostOf(s: State, h: Side): Host {
    if h == Low then s.low else s.high
  }

  function WithHost(s: State, h: Side, host: Host): State {
    if h == Low then s.(low := host) else s.(high := host)
  }

  function Other(h: Side): Side {
    if h == Low then High else Low
  }

  function EndOf(c: Conn, h: Side): EndState {
    if c.dialer == h then c.dialEnd else c.acceptEnd
  }

  function WithEnd(c: Conn, h: Side, e: EndState): Conn {
    if c.dialer == h then c.(dialEnd := e) else c.(acceptEnd := e)
  }

  // ---- Steps --------------------------------------------------------------

  datatype Step =
    | Dial(h: Side, c: ConnId)
    | Accept(h: Side, c: ConnId)
    | DialDone(h: Side, c: ConnId)
    | DialFail(h: Side, c: ConnId)
    | Disconnect(h: Side, c: ConnId)

  /** conn.Close() */
  function Close(s: State, h: Side, c: ConnId): State
    requires c in s.conns
  {
    s.(conns := s.conns[c := WithEnd(s.conns[c], h, Closed)])
  }

  /** SetConn closes the connection held so far; serve then runs on the new one. */
  function Take(s: State, h: Side, c: ConnId): State
    requires c in s.conns
  {
    var was := HostOf(s, h).held;
    var s1 := if was.Some? && was.value in s.conns then Close(s, h, was.value) else s;
    WithHost(s1.(conns := s1.conns[c := WithEnd(s1.conns[c], h, Serving)]), h, Host(Some(c), true))
  }

  /** Accept: with a connection in hand the lower host refuses, the higher host changes over. */
  function Accepted(s: State, h: Side, c: ConnId): State
    requires c in s.conns
  {
    if HostOf(s, h).held.Some? && h == Low then Close(s, h, c)
    else Take(s.(conns := s.conns[c := s.conns[c].(replied := true)]), h, c)
  }

  /** The end of Dial: with a connection in hand the higher host gives its own dial up. */
  function Dialed(s: State, h: Side, c: ConnId): State
    requires c in s.conns
  {
    if HostOf(s, h).held.Some? && h == High then Close(s, h, c) else Take(s, h, c)
  }

  /** disconnectPlayer, when the other end has been closed. */
  function Disconnected(s: State, h: Side, c: ConnId): State
    requires c in s.conns
  {
    var s1 := Close(s, h, c);
    if HostOf(s, h).held == Some(c) then WithHost(s1, h, Host(None, false)) else s1
  }

  predicate Enabled(s: State, e: Step) {
    match e
    case Dial(h, c) => HostOf(s, h).held.None? && c !in s.conns
    case Accept(h, c) => c in s.conns && s.conns[c].dialer == Other(h) && s.conns[c].acceptEnd == Handshaking
    case DialDone(h, c) => c in s.conns && s.conns[c].dialer == h && s.conns[c].dialEnd == Handshaking && s.conns[c].replied
    case DialFail(h, c) =>
      c in s.conns && s.conns[c].dialer == h && s.conns[c].dialEnd == Handshaking && s.conns[c].acceptEnd == Closed
    case Disconnect(h, c) =>
      c in s.conns && EndOf(s.conns[c], h) == Serving && EndOf(s.conns[c], Other(h)) == Closed
  }

  function Do(s: State, e: Step): State
    requires Enabled(s, e)
  {
    match e
    case Dial(h, c) => s.(conns := s.conns[c := Conn(h, false, Handshaking, Handshaking)])
    case Accept(h, c) => Accepted(s, h, c)
    case DialDone(h, c) => Dialed(s, h, c)
    case DialFail(h, c) => Close(s, h, c)
    case Disconnect(h, c) => Disconnected(s, h, c)
  }

  ghost predicate IsRun(states: seq<State>, steps: seq<Step>) {
    && |states| == |steps| + 1
    && states[0] == INITIAL
    && forall i | 0 <= i < |steps| :: Enabled(states[i], steps[i]) && states[i + 1] == Do(states[i], steps[i])
  }

  // ---- Invariant ----------------------------------------------------------

  /** A host serves the connection it holds and no other; its bit says whether it holds one. */
  ghost predicate HoldsServed(s: State, h: Side) {
    var host := HostOf(s, h);
    && (forall c | c in s.conns :: EndOf(s.conns[c], h) == Serving <==> host.held == Some(c))
    && (host.held.Some? ==> host.held.value in s.conns)
    && host.bit == host.held.Some?
  }

  predicate ConnOk(c: Conn) {
    && (c.acceptEnd == Serving || c.dialEnd == Serving ==> c.replied)
    && (c.acceptEnd == Handshaking ==> !c.replied && c.dialEnd == Handshaking)
  }

  ghost predicate Inv(s: State) {
    && HoldsServed(s, Low) && HoldsServed(s, High)
    && forall c | c in s.conns :: ConnOk(s.conns[c])
  }

  /** Closing an end that is not served changes nothing that a host holds. */
  lemma CloseKeeps(s: State, h: Side, c: ConnId)
    requires Inv(s) && c in s.conns && EndOf(s.conns[c], h) != Serving
    requires s.conns[c].dialer == h ==> s.conns[c].acceptEnd != Handshaking
    ensures Inv(Close(s, h, c))
  {
  }

  /** Taking a connection over, once its reply is out; `replied` may just have been set. */
  lemma TakeKeeps(s: State, h: Side, c: ConnId)
    requires HoldsServed(s, Low) && HoldsServed(s, High) && c in s.conns && EndOf(s.conns[c], h) == Handshaking
    requires forall d | d in s.conns && d != c :: ConnOk(s.conns[d])
    requires s.conns[c].replied && (s.conns[c].dialer == h ==> s.conns[c].acceptEnd != Handshaking)
    ensures Inv(Take(s, h, c))
  {
    hide Take, HoldsServed;
    TakeChanges(s, h, c);
    var s' := Take(s, h, c);
    assert h == Low || h == High;
    SelfServes(s, h, c, s');
    OtherServes(s, h, c, s');
    forall d | d in s'.conns
      ensures ConnOk(s'.conns[d])
    {
      assert d != c ==> ConnOk(s.conns[d]);
    }
  }

  lemma SelfServes(s: State, h: Side, c: ConnId, s': State)
    requires HoldsServed(s, h) && c in s.conns && s'.conns.Keys == s.conns.Keys
    requires HostOf(s', h) == Host(Some(c), true) && EndOf(s'.conns[c], h) == Serving
    requires forall d | d in s.conns && d != c ::
      EndOf(s'.conns[d], h) == (if HostOf(s, h).held == Some(d) then Closed else EndOf(s.conns[d], h))
    ensures HoldsServed(s', h)
  {
  }

  lemma OtherServes(s: State, h: Side, c: ConnId, s': State)
    requires HoldsServed(s, Other(h)) && c in s.conns && s'.conns.Keys == s.conns.Keys
    requires HostOf(s', Other(h)) == HostOf(s, Other(h))
    requires forall d | d in s.conns :: exists e :: s'.conns[d] == WithEnd(s.conns[d], h, e)
    ensures HoldsServed(s', Other(h))
  {
    forall d | d in s'.conns
      ensures EndOf(s'.conns[d], Other(h)) == EndOf(s.conns[d], Other(h))
    {
    }
  }

  /** Take touches the connection, the one it replaces, and the host. */
  lemma TakeChanges(s: State, h: Side, c: ConnId)
    requires HoldsServed(s, h) && c in s.conns && EndOf(s.conns[c], h) == Handshaking
    ensures var s' := Take(s, h, c);
      && HostOf(s', h) == Host(Some(c), true) && HostOf(s', Other(h)) == HostOf(s, Other(h))
      && s'.conns.Keys == s.conns.Keys
      && s'.conns[c] == WithEnd(s.conns[c], h, Serving)
      && forall d | d in s.conns && d != c ::
           && s'.conns[d] == WithEnd(s.conns[d], h, if HostOf(s, h).held == Some(d) then Closed else EndOf(s.conns[d], h))
           && (HostOf(s, h).held == Some(d) ==> EndOf(s.conns[d], h) == Serving)
  {
    var was := HostOf(s, h).held;
    if was.Some? {
      assert EndOf(s.conns[was.value], h) == Serving;
    }
  }

  lemma ReplyKeeps(s: State, h: Side, c: ConnId)
    requires Inv(s) && Enabled(s, Accept(h, c))
    ensures Inv(Take(s.(conns := s.conns[c := s.conns[c].(replied := true)]), h, c))
  {
    var s1 := s.(conns := s.conns[c := s.conns[c].(replied := true)]);
    assert HoldsServed(s1, Low) && HoldsServed(s1, High);
    TakeKeeps(s1, h, c);
  }

  lemma DisconnectKeeps(s: State, h: Side, c: ConnId)
    requires Inv(s) && Enabled(s, Disconnect(h, c))
    ensures Inv(Disconnected(s, h, c))
  {
  }

  lemma DialKeeps(s: State, h: Side, c: ConnId)
    requires Inv(s) && Enabled(s, Dial(h, c))
    ensures Inv(Do(s, Dial(h, c)))
  {
  }

  lemma InvStep(s: State, e: Step)
    requires Inv(s) && Enabled(s, e)
    ensures Inv(Do(s, e))
  {
    match e
    case Dial(h, c) => DialKeeps(s, h, c);
    case Accept(h, c) =>
      if HostOf(s, h).held.Some? && h == Low {
        CloseKeeps(s, h, c);
      } else {
        ReplyKeeps(s, h, c);
      }
    case DialDone(h, c) =>
      assert ConnOk(s.conns[c]);
      if HostOf(s, h).held.Some? && h == High {
        CloseKeeps(s, h, c);
      } else {
        TakeKeeps(s, h, c);
      }
    case DialFail(h, c) => CloseKeeps(s, h, c);
    case Disconnect(h, c) => DisconnectKeeps(s, h, c);
  }

  lemma {:induction false} RunKeepsInv(states: seq<State>, steps: seq<Step>, i: nat)
    requires IsRun(states, steps) && i < |states|
    ensures Inv(states[i])
  {
    if i > 0 {
      RunKeepsInv(states, steps, i - 1);
      InvStep(states[i - 1], steps[i - 1]);
    }
  }

  // ---- Agreement ----------------------------------------------------------

  /** Nothing is left to do but to dial. */
  ghost predicate Settled(s: State) {
    forall e: Step | !e.Dial? :: !Enabled(s, e)
  }

  /** Once all handshakes have settled both hosts hold the same connection, or neither holds one. */
  lemma SettledAgree(states: seq<State>, steps: seq<Step>, i: nat)
    requires IsRun(states, steps) && i < |states| && Settled(states[i])
    ensures states[i].low == states[i].high
    ensures states[i].low.bit <==> states[i].low.held.Some?
  {
    RunKeepsInv(states, steps, i);
    SameServed(states[i], Low);
    SameServed(states[i], High);
  }

  lemma SameServed(s: State, h: Side)
    requires Inv(s) && Settled(s)
    ensures HostOf(s, h).held.Some? ==> HostOf(s, Other(h)).held == HostOf(s, h).held
  {
    var held := HostOf(s, h).held;
    if held.Some? {
      var c := held.value;
      var conn := s.conns[c];
      assert EndOf(conn, h) == Serving;
      assert ConnOk(conn);
      assert !Enabled(s, Disconnect(h, c)) && !Enabled(s, DialDone(conn.dialer, c));
      assert EndOf(conn, Other(h)) == Serving;
    }
  }

  /** The peerset bit says at every moment whether the host holds a connection, and which end it serves. */
  lemma BitIsHeld(states: seq<State>, steps: seq<Step>, i: nat, h: Side)
    requires IsRun(states, steps) && i < |states|
    ensures var host := HostOf(states[i], h);
      host.bit <==> exists c | c in states[i].conns :: EndOf(states[i].conns[c], h) == Serving
  {
    RunKeepsInv(states, steps, i);
    var host := HostOf(states[i], h);
    if host.bit {
      assert EndOf(states[i].conns[host.held.value], h) == Serving;
    }
  }

  // ---- The lower host's dial wins -----------------------------------------

  predicate InFlight(s: State, c: ConnId) {
    c in s.conns && s.conns[c].dialer == Low && s.conns[c].dialEnd == Handshaking
  }

  /** The lower host starts no dial while one of its dials waits for an answer. */
  ghost predicate OneDialAtATime(states: seq<State>, steps: seq<Step>)
    requires IsRun(states, steps)
  {
    forall i | 0 <= i < |steps| && steps[i].Dial? && steps[i].h == Low :: forall c :: !InFlight(states[i], c)
  }

  /** There is at most one dial of the lower host, and neither end of it is ever closed. */
  ghost predicate LowInv(s: State) {
    && (forall c, d | c in s.conns && d in s.conns && s.conns[c].dialer == Low && s.conns[d].dialer == Low :: c == d)
    && (forall c | c in s.conns && s.conns[c].dialer == Low ::
          s.conns[c].dialEnd != Closed && s.conns[c].acceptEnd != Closed)
  }

  lemma LowStep(s: State, e: Step)
    requires Inv(s) && LowInv(s) && Enabled(s, e)
    requires e.Dial? && e.h == Low ==> forall c :: !InFlight(s, c)
    ensures LowInv(Do(s, e))
  {
    match e
    case Dial(h, c) => NoLowDial(s, h);
    case Accept(h, c) => LowAccept(s, h, c);
    case DialDone(h, c) => LowDialed(s, h, c);
    case DialFail(h, c) =>
    case Disconnect(h, c) =>
  }

  /** The lower host, free to dial and with no dial in flight, has never dialed. */
  lemma NoLowDial(s: State, h: Side)
    requires Inv(s) && LowInv(s) && HostOf(s, h).held.None?
    requires h == Low ==> forall c :: !InFlight(s, c)
    ensures h == Low ==> forall c | c in s.conns :: s.conns[c].dialer == High
  {
    if h == Low {
      forall c | c in s.conns
        ensures s.conns[c].dialer == High
      {
        assert !InFlight(s, c);
        assert EndOf(s.conns[c], Low) != Serving;
      }
    }
  }

  lemma LowAccept(s: State, h: Side, c: ConnId)
    requires Inv(s) && LowInv(s) && Enabled(s, Accept(h, c))
    ensures LowInv(Accepted(s, h, c))
  {
    var was := HostOf(s, h).held;
    if was.Some? {
      assert EndOf(s.conns[was.value], h) == Serving;
      assert h == High ==> s.conns[was.value].dialer == High;
    }
  }

  lemma LowDialed(s: State, h: Side, c: ConnId)
    requires Inv(s) && LowInv(s) && Enabled(s, DialDone(h, c))
    ensures LowInv(Dialed(s, h, c))
  {
    var was := HostOf(s, h).held;
    if was.Some? {
      assert EndOf(s.conns[was.value], h) == Serving;
      assert h == Low ==> s.conns[was.value].dialer == High;
    }
  }

  lemma {:induction false} RunKeepsLow(states: seq<State>, steps: seq<Step>, i: nat)
    requires IsRun(states, steps) && OneDialAtATime(states, steps) && i < |states|
    ensures LowInv(states[i])
  {
    if i > 0 {
      RunKeepsLow(states, steps, i - 1);
      RunKeepsInv(states, steps, i - 1);
      LowStep(states[i - 1], steps[i - 1]);
    }
  }

  /** If the lower host has dialed, both hosts settle on that dial. */
  lemma LowerDialWins(states: seq<State>, steps: seq<Step>, i: nat, c: ConnId)
    requires IsRun(states, steps) && OneDialAtATime(states, steps) && i < |states| && Settled(states[i])
    requires c in states[i].conns && states[i].conns[c].dialer == Low
    ensures states[i].low.held == Some(c) && states[i].high.held == Some(c)
  {
    var s := states[i];
    RunKeepsInv(states, steps, i);
    RunKeepsLow(states, steps, i);
    assert !Enabled(s, Accept(High, c)) && !Enabled(s, DialDone(Low, c));
    assert ConnOk(s.conns[c]);
    assert EndOf(s.conns[c], High) == Serving;
    assert EndOf(s.conns[c], Low) == Serving;
  }

  // ---- Overlapping dials of the lower host --------------------------------

  /** The steps lead from s to s'. */
  ghost predicate Follows(s: State, steps: seq<Step>, s': State)
    decreases |steps|
  {
    if steps == [] then s' == s else Enabled(s, steps[0]) && Follows(Do(s, steps[0]), steps[1..], s')
  }

  /** The higher host refuses no dial: an accept end of a dial of the lower host is closed only after a reply. */
  ghost predicate LowReplied(s: State) {
    forall c | c in s.conns && s.conns[c].dialer == Low && s.conns[c].acceptEnd == Closed :: s.conns[c].replied
  }

  lemma LowRepliedStep(s: State, e: Step)
    requires Inv(s) && LowReplied(s) && Enabled(s, e)
    ensures LowReplied(Do(s, e))
  {
    hide HoldsServed;
    var s' := Do(s, e);
    forall c | c in s'.conns && s'.conns[c].dialer == Low && s'.conns[c].acceptEnd == Closed
      ensures s'.conns[c].replied
    {
      StepCloses(s, e, c);
    }
  }

  /** An accept end is closed by its host when it has been served, or by a refusal of the lower host. */
  lemma StepCloses(s: State, e: Step, c: ConnId)
    requires Inv(s) && Enabled(s, e) && c in Do(s, e).conns && Do(s, e).conns[c].acceptEnd == Closed
    requires Do(s, e).conns[c].dialer == Low
    ensures c in s.conns && s.conns[c].dialer == Low && (s.conns[c].replied ==> Do(s, e).conns[c].replied)
    ensures s.conns[c].acceptEnd == Closed || s.conns[c].replied
  {
    assert c in s.conns ==> ConnOk(s.conns[c]);
    if (e.Accept? || e.DialDone?) && HostOf(s, e.h).held.Some? {
      assert EndOf(s.conns[HostOf(s, e.h).held.value], e.h) == Serving;
    }
  }

  lemma {:induction false} RunKeepsReplied(states: seq<State>, steps: seq<Step>, i: nat)
    requires IsRun(states, steps) && i < |states|
    ensures LowReplied(states[i])
  {
    if i > 0 {
      RunKeepsReplied(states, steps, i - 1);
      RunKeepsInv(states, steps, i - 1);
      LowRepliedStep(states[i - 1], steps[i - 1]);
    }
  }

  /** The steps that lose both dials. */
  function Losing(s: State, c: ConnId, d: ConnId): seq<Step>
    requires c in s.conns
  {
    [Dial(Low, d)] + (if s.conns[c].acceptEnd == Handshaking then [Accept(High, c)] else []) + LosingEnd(c, d)
  }

  function LosingEnd(c: ConnId, d: ConnId): seq<Step> {
    [Accept(High, d), DialDone(Low, d), DialDone(Low, c), Disconnect(High, d), Disconnect(Low, c)]
  }

  /** Both dials are out, the first has been answered, and the lower host holds nothing. */
  ghost predicate Overlap(s: State, c: ConnId, d: ConnId) {
    && Inv(s) && c != d && c in s.conns && d in s.conns && s.low.held == None
    && s.conns[d] == Conn(Low, false, Handshaking, Handshaking)
    && s.conns[c].dialer == Low && s.conns[c].replied
    && s.conns[c].dialEnd == Handshaking && s.conns[c].acceptEnd != Handshaking
  }

  /** Accepted by the higher host, and closed again at either end. */
  ghost predicate BothLost(s: State, c: ConnId, d: ConnId) {
    && s.low.held == None && s.high.held == None
    && c in s.conns && s.conns[c] == Conn(Low, true, Closed, Closed)
    && d in s.conns && s.conns[d] == Conn(Low, true, Closed, Closed)
  }

  lemma OverlapStarts(s: State, c: ConnId, d: ConnId) returns (s': State)
    requires Inv(s) && LowReplied(s) && InFlight(s, c) && Enabled(s, Dial(Low, d))
    ensures Overlap(s', c, d)
    ensures Follows(s, Losing(s, c, d)[..|Losing(s, c, d)| - 5], s')
  {
    var s1 := Do(s, Dial(Low, d));
    InvStep(s, Dial(Low, d));
    assert ConnOk(s1.conns[c]) && c != d;
    var front := Losing(s, c, d)[..|Losing(s, c, d)| - 5];
    if s.conns[c].acceptEnd == Handshaking {
      s' := Do(s1, Accept(High, c));
      InvStep(s1, Accept(High, c));
      AcceptTakes(s1, c);
      assert front == [Dial(Low, d), Accept(High, c)];
      assert front[1..] == [Accept(High, c)] && front[1..][1..] == [];
    } else {
      s' := s1;
      assert front == [Dial(Low, d)] && front[1..] == [];
    }
  }

  /** The higher host accepts, whatever it held. */
  lemma AcceptTakes(s: State, c: ConnId)
    requires Inv(s) && Enabled(s, Accept(High, c))
    ensures var s' := Do(s, Accept(High, c));
      && s'.low == s.low && s'.high.held == Some(c) && s'.conns.Keys == s.conns.Keys
      && s'.conns[c] == s.conns[c].(replied := true, acceptEnd := Serving)
      && forall d | d in s.conns && d != c && s.conns[d].dialer == Low ::
           s'.conns[d] == if s.conns[d].acceptEnd == Serving then s.conns[d].(acceptEnd := Closed) else s.conns[d]
  {
    hide Take, HoldsServed;
    var s1 := s.(conns := s.conns[c := s.conns[c].(replied := true)]);
    ServedStays(s, s1);
    TakeChanges(s1, High, c);
    ServesHeld(s);
  }

  lemma ServedStays(s: State, s1: State)
    requires HoldsServed(s, High) && s1.high == s.high && s1.conns.Keys == s.conns.Keys
    requires forall d | d in s.conns :: EndOf(s1.conns[d], High) == EndOf(s.conns[d], High)
    ensures HoldsServed(s1, High)
  {
  }

  lemma ServesHeld(s: State)
    requires HoldsServed(s, High)
    ensures forall d | d in s.conns && s.conns[d].dialer == Low :: s.conns[d].acceptEnd == Serving <==> s.high.held == Some(d)
  {
    forall d | d in s.conns && s.conns[d].dialer == Low
      ensures s.conns[d].acceptEnd == Serving <==> s.high.held == Some(d)
    {
      assert EndOf(s.conns[d], High) == s.conns[d].acceptEnd;
    }
  }

  lemma OverlapEnds(s: State, c: ConnId, d: ConnId) returns (s': State)
    requires Overlap(s, c, d)
    ensures BothLost(s', c, d) && Follows(s, LosingEnd(c, d), s')
  {
    var s1 := Do(s, Accept(High, d));
    AcceptTakes(s, d);
    assert s1.conns[c].acceptEnd == Closed;
    var s2 := Do(s1, DialDone(Low, d));
    assert s2.low.held == Some(d) && s2.conns == s1.conns[d := Conn(Low, true, Serving, Serving)];
    var s3 := Do(s2, DialDone(Low, c));
    assert s3.low.held == Some(c) && s3.high == s2.high;
    assert s3.conns[d] == Conn(Low, true, Closed, Serving) && s3.conns[c] == Conn(Low, true, Serving, Closed);
    var s4 := Do(s3, Disconnect(High, d));
    s' := Do(s4, Disconnect(Low, c));
    FollowsFive(s, c, d, s1, s2, s3, s4, s');
  }

  lemma FollowsFive(s: State, c: ConnId, d: ConnId, s1: State, s2: State, s3: State, s4: State, s': State)
    requires Enabled(s, Accept(High, d)) && s1 == Do(s, Accept(High, d))
    requires Enabled(s1, DialDone(Low, d)) && s2 == Do(s1, DialDone(Low, d))
    requires Enabled(s2, DialDone(Low, c)) && s3 == Do(s2, DialDone(Low, c))
    requires Enabled(s3, Disconnect(High, d)) && s4 == Do(s3, Disconnect(High, d))
    requires Enabled(s4, Disconnect(Low, c)) && s' == Do(s4, Disconnect(Low, c))
    ensures Follows(s, LosingEnd(c, d), s')
  {
    hide Enabled, Do;
    var e := LosingEnd(c, d);
    assert e[4..] == [e[4]] && e[4..][1..] == [];
    assert Follows(s4, e[4..], s');
    assert e[3..][1..] == e[4..];
    assert Follows(s3, e[3..], s');
    assert e[2..][1..] == e[3..];
    assert Follows(s2, e[2..], s');
    assert e[1..][1..] == e[2..];
    assert Follows(s1, e[1..], s');
  }

  lemma {:induction false} FollowsOn(s: State, steps: seq<Step>, mid: State, more: seq<Step>, s': State)
    requires Follows(s, steps, mid) && Follows(mid, more, s')
    ensures Follows(s, steps + more, s')
    decreases |steps|
  {
    hide Enabled, Do;
    if steps == [] {
      assert steps + more == more;
    } else {
      assert (steps + more)[1..] == steps[1..] + more;
      FollowsOn(Do(s, steps[0]), steps[1..], mid, more, s');
    }
  }

  /**
   * Whenever the lower host starts a dial while another waits for its answer, the run can go on so that the higher host
   * accepts both, both are lost, and neither host holds a connection.
   */
  lemma OverlappingDialLoses(states: seq<State>, steps: seq<Step>, c: ConnId, d: ConnId) returns (s': State)
    requires IsRun(states, steps) && InFlight(states[|steps|], c) && Enabled(states[|steps|], Dial(Low, d))
    ensures Losing(states[|steps|], c, d)[0] == Dial(Low, d)
    ensures Follows(states[|steps|], Losing(states[|steps|], c, d), s') && BothLost(s', c, d)
  {
    var s := states[|steps|];
    RunKeepsInv(states, steps, |steps|);
    RunKeepsReplied(states, steps, |steps|);
    var mid := OverlapStarts(s, c, d);
    s' := OverlapEnds(mid, c, d);
    var e := Losing(s, c, d);
    FollowsOn(s, e[..|e| - 5], mid, LosingEnd(c, d), s');
    assert e == e[..|e| - 5] + LosingEnd(c, d);
  }

  /** Two dials, and the hosts have settled unconnected. */
  lemma OverlappingDialsCanLose() returns (s': State)
    ensures Follows(INITIAL, [Dial(Low, 1)] + Losing(Do(INITIAL, Dial(Low, 1)), 1, 2), s')
    ensures BothLost(s', 1, 2) && Settled(s')
  {
    hide Settled, BothLost;
    var s := Do(INITIAL, Dial(Low, 1));
    s' := OverlappingDialLoses([INITIAL, s], [Dial(Low, 1)], 1, 2);
    var e := Losing(s, 1, 2);
    assert ([Dial(Low, 1)] + e)[1..] == e;
    OnlyTwo(s, e, s');
    LostIsSettled(s');
  }

  lemma LostIsSettled(s: State)
    requires BothLost(s, 1, 2) && s.conns.Keys <= {1, 2}
    ensures Settled(s)
  {
    forall c | c in s.conns
      ensures s.conns[c] == Conn(Low, true, Closed, Closed)
    {
      assert c in s.conns.Keys;
    }
  }

  /** Steps add no connection but those they dial. */
  lemma {:induction false} OnlyTwo(s: State, steps: seq<Step>, s': State)
    requires Follows(s, steps, s') && s.conns.Keys <= {1, 2}
    requires forall e | e in steps && e.Dial? :: e.c == 2
    ensures s'.conns.Keys <= {1, 2}
    decreases |steps|
  {
    if steps != [] {
      OnlyTwo(Do(s, steps[0]), steps[1..], s');
    }
  }

  // ---- Settling -----------------------------------------------------------

  function EndRank(e: EndState): nat {
    match e
    case Handshaking => 2
    case Serving => 1
    case Closed => 0
  }

  function Rank(c: Conn): nat {
    EndRank(c.dialEnd) + EndRank(c.acceptEnd)
  }

  /** What the connections at hand can still do. */
  ghost function Work(conns: map<ConnId, Conn>): nat {
    if conns == map[] then 0 else
      var c :| c in conns;
      Rank(conns[c]) + Work(conns - {c})
  }

  lemma {:induction false} WorkWithout(conns: map<ConnId, Conn>, c: ConnId)
    requires c in conns
    ensures Work(conns) == Rank(conns[c]) + Work(conns - {c})
    decreases |conns|
  {
    var d :| d in conns && Work(conns) == Rank(conns[d]) + Work(conns - {d});
    if c != d {
      WorkWithout(conns - {d}, c);
      WorkWithout(conns - {c}, d);
      assert conns - {d} - {c} == conns - {c} - {d};
    }
  }

  lemma WorkUpdate(conns: map<ConnId, Conn>, c: ConnId, v: Conn)
    requires c in conns
    ensures Work(conns[c := v]) == Work(conns) - Rank(conns[c]) + Rank(v)
  {
    WorkWithout(conns, c);
    WorkWithout(conns[c := v], c);
    assert conns[c := v] - {c} == conns - {c};
  }

  lemma CloseWorks(s: State, h: Side, c: ConnId)
    requires c in s.conns && EndOf(s.conns[c], h) != Closed
    ensures Work(Close(s, h, c).conns) < Work(s.conns)
  {
    WorkUpdate(s.conns, c, WithEnd(s.conns[c], h, Closed));
  }

  lemma TakeWorks(s: State, h: Side, c: ConnId)
    requires HoldsServed(s, h) && c in s.conns && EndOf(s.conns[c], h) == Handshaking
    ensures Work(Take(s, h, c).conns) < Work(s.conns)
  {
    var was := HostOf(s, h).held;
    var s1 := s;
    if was.Some? {
      assert EndOf(s.conns[was.value], h) == Serving;
      s1 := Close(s, h, was.value);
      CloseWorks(s, h, was.value);
    }
    WorkUpdate(s1.conns, c, WithEnd(s1.conns[c], h, Serving));
  }

  /** Every step but a new dial lessens the work: after the last dial the hosts settle. */
  lemma WorkStep(s: State, e: Step)
    requires Inv(s) && Enabled(s, e) && !e.Dial?
    ensures Work(Do(s, e).conns) < Work(s.conns)
  {
    match e
    case Accept(h, c) =>
      if HostOf(s, h).held.Some? && h == Low {
        CloseWorks(s, h, c);
      } else {
        var s1 := s.(conns := s.conns[c := s.conns[c].(replied := true)]);
        WorkUpdate(s.conns, c, s1.conns[c]);
        TakeWorks(s1, h, c);
      }
    case DialDone(h, c) =>
      if HostOf(s, h).held.Some? && h == High {
        CloseWorks(s, h, c);
      } else {
        TakeWorks(s, h, c);
      }
    case DialFail(h, c) => CloseWorks(s, h, c);
    case Disconnect(h, c) => CloseWorks(s, h, c);
  }
}
