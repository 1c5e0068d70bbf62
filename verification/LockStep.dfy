// The lock-step barrier of network/lobby/game.go as a state machine over values.

/** Every player acknowledges every turn with a checksum. The host keeps the acks of the fast
    players queued until the slowest one has answered, then compares one ack of each. */
module LockStep {

  /** BitSet32 indices, and therefore player ids, run from 1 to 32. */
  type Pid = p: nat | 1 <= p <= 32 witness 1

  /** A uint32 that is only ever compared. */
  type Checksum = nat

  const RING_SIZE: nat := 2048
  const UINT32: nat := 0x1_0000_0000

  /** One player: the acks waiting, the acks already compared (a history variable) and the tick counter. */
  datatype Seat = Seat(queue: seq<Checksum>, log: seq<Checksum>, tick: nat)

  type Seats = map<Pid, Seat>

  /** `mask` is ackmask; `leaving` counts the players deleted by onLeave whose PlayerLeft event is still to come. */
  datatype Host = Host(players: Seats, mask: set<Pid>, leaving: multiset<Pid>, started: bool, tick: nat)

  // ---- Voting -------------------------------------------------------------

  ghost predicate AllQueued(ps: Seats) {
    forall p | p in ps :: ps[p].queue != []
  }

  /** The ack of each player that one pass of the dequeue loop collects. */
  ghost function Heads(ps: Seats): map<Pid, Checksum>
    requires AllQueued(ps)
  {
    map p | p in ps :: ps[p].queue[0]
  }

  ghost function Playing(votes: map<Pid, Checksum>, obs: set<Pid>, v: Checksum): set<Pid> {
    set p | p in votes && votes[p] == v && p !in obs
  }

  ghost function Observing(votes: map<Pid, Checksum>, obs: set<Pid>, v: Checksum): set<Pid> {
    set p | p in votes && votes[p] == v && p in obs
  }

  /** The tally that desync keeps: 0xFF per player, 1 per observer. */
  ghost function Weight(votes: map<Pid, Checksum>, obs: set<Pid>, v: Checksum): nat {
    0xFF * |Playing(votes, obs, v)| + |Observing(votes, obs, v)|
  }

  ghost predicate Winner(votes: map<Pid, Checksum>, obs: set<Pid>, v: Checksum) {
    && v in votes.Values
    && forall w | w in votes.Values :: Weight(votes, obs, w) <= Weight(votes, obs, v)
  }

  /** Most players first, observers only to break a tie. */
  ghost predicate Precedes(votes: map<Pid, Checksum>, obs: set<Pid>, w: Checksum, v: Checksum) {
    var (pw, pv) := (|Playing(votes, obs, w)|, |Playing(votes, obs, v)|);
    pw < pv || (pw == pv && |Observing(votes, obs, w)| <= |Observing(votes, obs, v)|)
  }

  lemma {:induction false} AtMost(s: set<Pid>, n: nat)
    requires n <= 32 && forall p | p in s :: p <= n
    ensures |s| <= n
  {
    if n == 0 {
      assert s == {};
    } else {
      AtMost(s - {n}, n - 1);
      assert n !in s ==> s - {n} == s;
    }
  }

  /** With ids up to 32 one player always outweighs all observers: the tally is the lexicographic order. */
  lemma WinnerIsLexicographic(votes: map<Pid, Checksum>, obs: set<Pid>, v: Checksum)
    ensures Winner(votes, obs, v) <==>
      v in votes.Values && forall w | w in votes.Values :: Precedes(votes, obs, w, v)
  {
    forall w: Checksum
      ensures Weight(votes, obs, w) <= Weight(votes, obs, v) <==> Precedes(votes, obs, w, v)
    {
      AtMost(Observing(votes, obs, w), 32);
      AtMost(Observing(votes, obs, v), 32);
    }
  }

  // ---- One pass and one drain ---------------------------------------------

  function Pop(s: Seat): Seat
    requires s.queue != []
  {
    Seat(s.queue[1..], s.log + [s.queue[0]], s.tick)
  }

  /** What a pass leaves: the players that voted v, one ack further. */
  ghost function Round(ps: Seats, v: Checksum): Seats
    requires AllQueued(ps)
  {
    map p | p in ps && ps[p].queue[0] == v :: Pop(ps[p])
  }

  ghost function Stragglers(ps: Seats): set<Pid> {
    set p | p in ps && ps[p].queue == []
  }

  /** The loop of drainAcks, entered with an empty mask: `vs` are the checksums that won, pass by pass. */
  ghost predicate Drained(ps: Seats, obs: set<Pid>, vs: seq<Checksum>, ps': Seats, mask': set<Pid>)
    decreases |vs|
  {
    if vs == [] then
      ps == map[] && ps' == map[] && mask' == {}
    else
      && AllQueued(ps)
      && Winner(Heads(ps), obs, vs[0])
      && var next := Round(ps, vs[0]);
         if Stragglers(next) == {} then
           Drained(next, obs, vs[1..], ps', mask')
         else
           |vs| == 1 && ps' == next && mask' == Stragglers(next)
  }

  /** drainAcks(pid) */
  ghost predicate DrainAcks(h: Host, pid: Pid, obs: set<Pid>, vs: seq<Checksum>, h': Host) {
    if pid !in h.mask then
      vs == [] && h' == h
    else if h.mask - {pid} != {} then
      vs == [] && h' == h.(mask := h.mask - {pid})
    else
      && h' == h.(players := h'.players, mask := h'.mask)
      && Drained(h.players, obs, vs, h'.players, h'.mask)
  }

  /** drainAcks(pid) reaches its "Could not dequeue ack" panic exactly in these states. */
  ghost predicate DrainPanics(h: Host, pid: Pid) {
    h.mask == {pid} && !AllQueued(h.players)
  }

  /** A player after the acks vs at the front of its queue have been compared. */
  function After(s: Seat, vs: seq<Checksum>): Seat
    requires vs <= s.queue
  {
    Seat(s.queue[|vs|..], s.log + vs, s.tick)
  }

  /** ps' are exactly the players of ps whose queue starts with vs, that many acks further. */
  ghost predicate Survive(ps: Seats, vs: seq<Checksum>, ps': Seats) {
    && (forall p :: p in ps' <==> p in ps && vs <= ps[p].queue)
    && (forall p | p in ps' :: ps'[p] == After(ps[p], vs))
  }

  /** The survivors of a drain are exactly the players whose queue starts with the winning checksums. */
  lemma {:induction false} DrainSurvivors(ps: Seats, obs: set<Pid>, vs: seq<Checksum>, ps': Seats, mask': set<Pid>)
    requires Drained(ps, obs, vs, ps', mask')
    ensures Survive(ps, vs, ps')
    ensures mask' == Stragglers(ps')
    ensures ps != map[] ==> ps' != map[] && mask' != {}
    decreases |vs|
  {
    if vs != [] {
      var next := Round(ps, vs[0]);
      RoundKeepsWinners(ps, obs, vs[0]);
      if Stragglers(next) == {} {
        DrainSurvivors(next, obs, vs[1..], ps', mask');
      } else {
        SurviveNothing(next);
        assert vs[1..] == [];
      }
      SurviveRound(ps, vs[0], vs[1..], ps');
      assert vs == [vs[0]] + vs[1..];
    }
  }

  lemma SurviveNothing(ps: Seats)
    ensures Survive(ps, [], ps)
  {
    forall p | p in ps
      ensures ps[p] == After(ps[p], [])
    {
      assert ps[p].queue[0..] == ps[p].queue;
      assert ps[p].log + [] == ps[p].log;
    }
  }

  lemma SurviveRound(ps: Seats, v: Checksum, vs: seq<Checksum>, ps': Seats)
    requires AllQueued(ps) && Survive(Round(ps, v), vs, ps')
    ensures Survive(ps, [v] + vs, ps')
  {
    forall p: Pid | p in ps
      ensures p in ps' <==> [v] + vs <= ps[p].queue
      ensures p in ps' ==> ps'[p] == After(ps[p], [v] + vs)
    {
      var next := Round(ps, v);
      AfterHead(ps[p], v, vs);
      assert p in next <==> ps[p].queue[0] == v;
      assert p in ps' <==> p in next && vs <= next[p].queue;
    }
  }

  lemma AfterHead(s: Seat, v: Checksum, vs: seq<Checksum>)
    requires s.queue != []
    ensures [v] + vs <= s.queue <==> s.queue[0] == v && vs <= Pop(s).queue
    ensures [v] + vs <= s.queue ==> After(s, [v] + vs) == After(Pop(s), vs)
  {
    PrefixByHead(v, vs, s.queue);
    assert s.log + [v] + vs == s.log + ([v] + vs);
  }

  lemma PrefixByHead(v: Checksum, vs: seq<Checksum>, queue: seq<Checksum>)
    requires queue != []
    ensures [v] + vs <= queue <==> queue[0] == v && vs <= queue[1..]
    ensures |vs| < |queue| ==> queue[1..][|vs|..] == queue[|vs| + 1..]
  {
    assert queue == [queue[0]] + queue[1..];
  }

  lemma RoundKeepsWinners(ps: Seats, obs: set<Pid>, v: Checksum)
    requires AllQueued(ps) && Winner(Heads(ps), obs, v)
    ensures Round(ps, v) != map[]
  {
    var heads := Heads(ps);
    var p :| p in heads && heads[p] == v;
    assert p in Round(ps, v);
  }

  ghost function Queued(ps: Seats): nat {
    if ps == map[] then 0 else
      var p :| p in ps;
      |ps[p].queue| + Queued(ps - {p})
  }

  lemma {:induction false} QueuedWithout(ps: Seats, p: Pid)
    requires p in ps
    ensures Queued(ps) == |ps[p].queue| + Queued(ps - {p})
    decreases |ps|
  {
    var q :| q in ps && Queued(ps) == |ps[q].queue| + Queued(ps - {q});
    if p != q {
      QueuedWithout(ps - {q}, p);
      QueuedWithout(ps - {p}, q);
      assert ps - {q} - {p} == ps - {p} - {q};
    }
  }

  /** A pass takes at least one ack: this is why the outer loop ends. */
  lemma {:induction false} RoundShrinks(ps: Seats, v: Checksum)
    requires AllQueued(ps) && ps != map[]
    ensures Queued(Round(ps, v)) < Queued(ps)
    decreases |ps|
  {
    var p :| p in ps;
    var rest := ps - {p};
    QueuedWithout(ps, p);
    if p in Round(ps, v) {
      QueuedWithout(Round(ps, v), p);
      assert Round(ps, v) - {p} == Round(rest, v);
    } else {
      assert Round(ps, v) == Round(rest, v);
    }
    if rest == map[] {
      assert Round(rest, v) == map[];
    } else {
      RoundShrinks(rest, v);
    }
  }

  /** The best-voted checksum among some candidates. */
  lemma {:induction false} WinnerExists(votes: map<Pid, Checksum>, obs: set<Pid>, cs: set<Checksum>) returns (v: Checksum)
    requires cs != {}
    ensures v in cs && forall w | w in cs :: Weight(votes, obs, w) <= Weight(votes, obs, v)
    decreases |cs|
  {
    v :| v in cs;
    if cs - {v} != {} {
      var u := WinnerExists(votes, obs, cs - {v});
      if Weight(votes, obs, v) < Weight(votes, obs, u) {
        v := u;
      }
    }
  }

  /** From a state in which every player has an ack waiting the drain loop always comes to an end. */
  lemma {:induction false} DrainEnds(ps: Seats, obs: set<Pid>)
    returns (vs: seq<Checksum>, ps': Seats, mask': set<Pid>)
    requires AllQueued(ps)
    ensures Drained(ps, obs, vs, ps', mask')
    decreases Queued(ps)
  {
    if ps == map[] {
      return [], map[], {};
    }
    var p :| p in ps;
    assert Heads(ps)[p] in Heads(ps).Values;
    var v := WinnerExists(Heads(ps), obs, Heads(ps).Values);
    var next := Round(ps, v);
    if Stragglers(next) == {} {
      RoundShrinks(ps, v);
      forall q | q in next
        ensures next[q].queue != []
      {
        assert q !in Stragglers(next);
      }
      vs, ps', mask' := DrainEnds(next, obs);
      vs := [v] + vs;
    } else {
      vs, ps', mask' := [v], next, Stragglers(next);
    }
  }

  // ---- The steps of a game ------------------------------------------------

  /** `obs` are the observers and `vs` the winning checksums of the drain, if the step drains. */
  datatype Step =
    | Join(pid: Pid)
    | Start
    | Advance
    | Ack(pid: Pid, sum: Checksum, obs: set<Pid>, vs: seq<Checksum>)
    | StrayAck(pid: Pid, drops: bool, obs: set<Pid>, vs: seq<Checksum>)
    | Remove(pid: Pid)
    | Left(pid: Pid, obs: set<Pid>, vs: seq<Checksum>)

  /** onGameTick: the sender is so far ahead that the stragglers are dropped. */
  predicate TooFarAhead(queue: nat, turnRate: int) {
    queue >= 2000 || (turnRate > 0 && queue * 1_000_000_000 / turnRate > 30_000_000_000)
  }

  ghost function DropStragglers(h: Host): Host {
    h.(players := h.players - h.mask, mask := {})
  }

  function Enqueue(s: Seat, sum: Checksum): Seat {
    Seat(s.queue + [sum], s.log, (s.tick + 1) % UINT32)
  }

  ghost function Enqueued(h: Host, pid: Pid, sum: Checksum): Host
    requires pid in h.players
  {
    h.(players := h.players[pid := Enqueue(h.players[pid], sum)])
  }

  /** The ack is refused, because the ring is full or because it answers a turn not yet sent. */
  ghost predicate Refused(h: Host, pid: Pid)
    requires pid in h.players
  {
    || |h.players[pid].queue| >= RING_SIZE
    || (h.players[pid].tick + 1) % UINT32 > h.tick
  }

  /** The ack makes onGameTick drop the stragglers. */
  ghost predicate Drops(h: Host, s: Step, turnRate: int) {
    match s
    case Ack(pid, _, _, _) =>
      pid in h.players && !Refused(h, pid) && TooFarAhead(|h.players[pid].queue| + 1, turnRate)
    case StrayAck(_, drops, _, _) => drops
    case _ => false
  }

  /** The step gets as far as calling drainAcks(s.pid). */
  ghost predicate CallsDrain(h: Host, s: Step) {
    match s
    case Ack(pid, _, _, _) => pid in h.players && !Refused(h, pid)
    case StrayAck(pid, _, _, _) => h.started && pid !in h.players
    case Left(pid, _, _) => pid in h.leaving
    case _ => false
  }

  /** The state in which drainAcks(s.pid) is then called. */
  ghost function BeforeDrain(h: Host, s: Step, turnRate: int): Host
    requires CallsDrain(h, s)
  {
    var h1 := match s
              case Ack(pid, sum, _, _) => Enqueued(h, pid, sum)
              case StrayAck(_, _, _, _) => h
              case Left(pid, _, _) => h.(leaving := h.leaving - multiset{pid});
    if Drops(h, s, turnRate) then DropStragglers(h1) else h1
  }

  ghost predicate Next(h: Host, s: Step, turnRate: int, h': Host) {
    if CallsDrain(h, s) then
      DrainAcks(BeforeDrain(h, s, turnRate), s.pid, s.obs, s.vs, h')
    else
      match s
      case Join(pid) =>
        && !h.started && pid !in h.players
        && h' == h.(players := h.players[pid := Seat([], [], 0)], mask := h.mask + {pid})
      case Start =>
        h' == h.(started := true)
      case Advance =>
        h.started && h' == h.(tick := (h.tick + 1) % UINT32)
      case Ack(pid, sum, _, _) =>
        && pid in h.players
        && h' == if |h.players[pid].queue| >= RING_SIZE then h else Enqueued(h, pid, sum)
      case Remove(pid) =>
        h' == h.(players := h.players - {pid}, leaving := h.leaving + multiset{pid})
      case _ => false
  }

  const INITIAL: Host := Host(map[], {}, multiset{}, false, 0)

  ghost predicate IsRun(states: seq<Host>, steps: seq<Step>, turnRate: int) {
    && |states| == |steps| + 1
    && states[0] == INITIAL
    && forall i | 0 <= i < |steps| :: Next(states[i], steps[i], turnRate, states[i + 1])
  }

  // ---- What every step keeps ----------------------------------------------

  /** A clear bit stands for an ack waiting. */
  ghost predicate Ready(h: Host) {
    forall p | p in h.players && p !in h.mask :: h.players[p].queue != []
  }

  /** All players have had the same acks compared. */
  ghost predicate Agreed(ps: Seats) {
    forall p, q | p in ps && q in ps :: ps[p].log == ps[q].log
  }

  /** Ticks count the acks received, compared or not; the ring is never overfull. */
  ghost predicate Counted(ps: Seats) {
    forall p | p in ps ::
      ps[p].tick == (|ps[p].log| + |ps[p].queue|) % UINT32 && |ps[p].queue| <= RING_SIZE
  }

  /** Every bit belongs to a player in the game or to one whose PlayerLeft event is still to come. */
  ghost predicate Owned(bits: set<Pid>, h: Host) {
    forall p | p in bits :: p in h.players || p in h.leaving
  }

  ghost predicate Inv(h: Host) {
    && Ready(h)
    && Owned(h.mask, h)
    && Agreed(h.players)
    && Counted(h.players)
    && (!h.started ==> h.tick == 0 && h.players.Keys <= h.mask && forall p | p in h.players :: h.players[p].log == [])
  }

  lemma DrainKeeps(h: Host, pid: Pid, obs: set<Pid>, vs: seq<Checksum>, h': Host)
    requires Owned(h.mask - {pid}, h)
    requires Agreed(h.players) && Counted(h.players)
    requires forall p | p in h.players && p !in h.mask - {pid} :: h.players[p].queue != []
    requires DrainAcks(h, pid, obs, vs, h')
    ensures Ready(h') && Agreed(h'.players) && Counted(h'.players)
    ensures Owned(h'.mask, h') && h'.players.Keys <= h.players.Keys
    ensures h'.started == h.started && h'.tick == h.tick && h'.leaving == h.leaving
  {
    if h.mask == {pid} {
      DrainSurvivors(h.players, obs, vs, h'.players, h'.mask);
      DrainCounts(h.players, vs, h'.players);
    }
  }

  lemma DrainCounts(ps: Seats, vs: seq<Checksum>, ps': Seats)
    requires Agreed(ps) && Counted(ps) && Survive(ps, vs, ps')
    ensures Agreed(ps') && Counted(ps')
  {
  }

  lemma EnqueueKeeps(h: Host, pid: Pid, sum: Checksum)
    requires Inv(h) && pid in h.players && |h.players[pid].queue| < RING_SIZE
    ensures Inv(Enqueued(h, pid, sum))
    ensures Enqueued(h, pid, sum).players[pid].queue != []
  {
    var s := h.players[pid];
    ModSucc(|s.log| + |s.queue|);
    EnqueueCounts(h.players, pid, Enqueue(s, sum));
    assert Enqueued(h, pid, sum).players.Keys == h.players.Keys;
  }

  lemma EnqueueCounts(ps: Seats, pid: Pid, s: Seat)
    requires pid in ps && Agreed(ps) && Counted(ps)
    requires s.log == ps[pid].log && |s.queue| <= RING_SIZE && s.tick == (|s.log| + |s.queue|) % UINT32
    ensures Agreed(ps[pid := s]) && Counted(ps[pid := s])
  {
  }

  lemma ModSucc(n: nat)
    ensures (n % UINT32 + 1) % UINT32 == (n + 1) % UINT32
  {
  }

  /** Before the game starts every ack is from the future. */
  lemma LobbyAcksRefused(h: Host, pid: Pid)
    requires Inv(h) && pid in h.players
    ensures !h.started ==> Refused(h, pid)
  {
  }

  /**
   * PlayerLeft is handled so late that somebody else plays under the id: it would clear a bit that the new player
   * needs, because nothing of theirs is queued or because the game has not begun.
   */
  ghost predicate LateLeft(h: Host, s: Step) {
    && s.Left? && s.pid in h.leaving && s.pid in h.players && s.pid in h.mask
    && (!h.started || h.players[s.pid].queue == [])
  }

  lemma ReadyToDrain(h: Host, s: Step, turnRate: int)
    requires Inv(h) && CallsDrain(h, s) && !LateLeft(h, s)
    ensures var h1 := BeforeDrain(h, s, turnRate);
      && Owned(h1.mask - {s.pid}, h1)
      && Agreed(h1.players) && Counted(h1.players)
      && (forall p | p in h1.players && p !in h1.mask - {s.pid} :: h1.players[p].queue != [])
      && h1.started == h.started && h1.tick == h.tick
      && (!h.started ==> h1.players == h.players && h1.mask == h.mask)
  {
    hide TooFarAhead, Enqueue;
    var h1 := h;
    if s.Ack? {
      EnqueueKeeps(h, s.pid, s.sum);
      LobbyAcksRefused(h, s.pid);
      h1 := Enqueued(h, s.pid, s.sum);
    } else if s.Left? {
      h1 := h.(leaving := h.leaving - multiset{s.pid});
    }
    DropKeeps(h1.players, h1.mask);
  }

  lemma DropKeeps(ps: Seats, gone: set<Pid>)
    requires Agreed(ps) && Counted(ps)
    ensures Agreed(ps - gone) && Counted(ps - gone)
  {
  }

  lemma InvDrain(h: Host, s: Step, turnRate: int, h': Host)
    requires Inv(h) && CallsDrain(h, s) && !LateLeft(h, s) && Next(h, s, turnRate, h')
    ensures Inv(h')
  {
    var h1 := BeforeDrain(h, s, turnRate);
    ReadyToDrain(h, s, turnRate);
    DrainKeeps(h1, s.pid, s.obs, s.vs, h');
    if !h.started && h1.mask == {s.pid} {
      DrainSurvivors(h1.players, s.obs, s.vs, h'.players, h'.mask);
    }
  }

  /** Every step keeps the barrier, save a PlayerLeft that comes too late. */
  lemma InvStep(h: Host, s: Step, turnRate: int, h': Host)
    requires Inv(h) && Next(h, s, turnRate, h') && !LateLeft(h, s)
    ensures Inv(h')
  {
    if CallsDrain(h, s) {
      InvDrain(h, s, turnRate, h');
    } else if s.Ack? && |h.players[s.pid].queue| < RING_SIZE {
      EnqueueKeeps(h, s.pid, s.sum);
    }
  }

  /** Handling PlayerLeft neither panics nor breaks the barrier, if and only if it does not come too late. */
  lemma LeftKeepsIff(h: Host, pid: Pid, obs: set<Pid>, turnRate: int)
    requires Inv(h) && pid in h.leaving
    ensures
      (&& !DrainPanics(BeforeDrain(h, Left(pid, obs, []), turnRate), pid)
       && forall vs, h' | Next(h, Left(pid, obs, vs), turnRate, h') :: Inv(h'))
      <==> !LateLeft(h, Left(pid, obs, []))
  {
    var h1 := BeforeDrain(h, Left(pid, obs, []), turnRate);
    if LateLeft(h, Left(pid, obs, [])) {
      if h.mask - {pid} != {} {
        LateLeftClears(h, pid, obs, turnRate);
      } else {
        assert h.mask == {pid};
        if !DrainPanics(h1, pid) {
          LateLeftCompares(h, pid, obs, turnRate);
        }
      }
    } else {
      StepNeverPanics(h, Left(pid, obs, []), turnRate);
      forall vs, h' | Next(h, Left(pid, obs, vs), turnRate, h')
        ensures Inv(h')
      {
        InvStep(h, Left(pid, obs, vs), turnRate, h');
      }
    }
  }

  /** Too late, with other bits set: the new player's bit is gone. */
  lemma LateLeftClears(h: Host, pid: Pid, obs: set<Pid>, turnRate: int)
    requires Inv(h) && LateLeft(h, Left(pid, obs, [])) && h.mask - {pid} != {}
    ensures exists vs, h' :: Next(h, Left(pid, obs, vs), turnRate, h') && !Inv(h')
  {
    var h1 := BeforeDrain(h, Left(pid, obs, []), turnRate);
    var h' := h1.(mask := h1.mask - {pid});
    assert Next(h, Left(pid, obs, []), turnRate, h');
    assert pid in h'.players.Keys && pid !in h'.mask;
    assert !Inv(h');
  }

  /** Too late, with an ack queued before the game has begun: it is compared, and later players never catch up. */
  lemma LateLeftCompares(h: Host, pid: Pid, obs: set<Pid>, turnRate: int)
    requires Inv(h) && LateLeft(h, Left(pid, obs, [])) && h.mask == {pid} && AllQueued(h.players)
    ensures exists vs, h' :: Next(h, Left(pid, obs, vs), turnRate, h') && !Inv(h')
  {
    var h1 := BeforeDrain(h, Left(pid, obs, []), turnRate);
    var vs, ps', mask' := DrainEnds(h.players, obs);
    var h' := h1.(players := ps', mask := mask');
    assert Next(h, Left(pid, obs, vs), turnRate, h');
    DrainSurvivors(h.players, obs, vs, ps', mask');
    assert vs != [];
    assert ps' != map[] by {
      assert pid in h.players;
    }
    var p :| p in ps';
    assert ps'[p].log == h.players[p].log + vs;
    assert !Inv(h');
  }

  // ---- Ids used again -----------------------------------------------------

  /** Nobody joins under an id whose PlayerLeft event is still to come. */
  ghost predicate FreshJoins(states: seq<Host>, steps: seq<Step>, turnRate: int)
    requires IsRun(states, steps, turnRate)
  {
    forall i | 0 <= i < |steps| && steps[i].Join? :: steps[i].pid !in states[i].leaving
  }

  ghost predicate Apart(h: Host) {
    forall p | p in h.players :: p !in h.leaving
  }

  lemma ApartStep(h: Host, s: Step, turnRate: int, h': Host)
    requires Inv(h) && Apart(h) && Next(h, s, turnRate, h') && (s.Join? ==> s.pid !in h.leaving)
    ensures Apart(h')
  {
    if CallsDrain(h, s) {
      ReadyToDrain(h, s, turnRate);
      DrainKeeps(BeforeDrain(h, s, turnRate), s.pid, s.obs, s.vs, h');
    }
  }

  lemma {:induction false} RunKeepsInv(states: seq<Host>, steps: seq<Step>, turnRate: int, i: nat)
    requires IsRun(states, steps, turnRate) && FreshJoins(states, steps, turnRate) && i < |states|
    ensures Inv(states[i]) && Apart(states[i])
  {
    if i > 0 {
      RunKeepsInv(states, steps, turnRate, i - 1);
      InvStep(states[i - 1], steps[i - 1], turnRate, states[i]);
      ApartStep(states[i - 1], steps[i - 1], turnRate, states[i]);
    }
  }

  /** Without that: 1 leaves, somebody joins as 1 before PlayerLeft is handled, and handling it panics. */
  lemma ReusedIdPanics(turnRate: int, obs: set<Pid>) returns (states: seq<Host>)
    ensures IsRun(states, [Join(1), Remove(1), Join(1)], turnRate)
    ensures Inv(states[3]) && CallsDrain(states[3], Left(1, obs, []))
    ensures DrainPanics(BeforeDrain(states[3], Left(1, obs, []), turnRate), 1)
  {
    var one: Seats := map[1 := Seat([], [], 0)];
    var bit: set<Pid> := {1};
    assert one - bit == map[];
    assert bit + bit == bit && {} + bit == bit;
    var gone: multiset<Pid> := multiset{1};
    assert multiset{} + gone == gone;
    states := [INITIAL, Host(one, bit, multiset{}, false, 0), Host(map[], bit, gone, false, 0),
               Host(one, bit, gone, false, 0)];
    assert map[][1 := Seat([], [], 0)] == one;
    assert 1 in one && one[1].queue == [];
  }

  lemma OwnedStep(h: Host, s: Step, turnRate: int, h': Host)
    requires Owned(h.mask, h) && Next(h, s, turnRate, h')
    ensures Owned(h'.mask, h')
  {
    hide Drained, Refused, TooFarAhead, Enqueue;
    if CallsDrain(h, s) {
      var h1 := BeforeDrain(h, s, turnRate);
      if h1.mask == {s.pid} {
        DrainSurvivors(h1.players, s.obs, s.vs, h'.players, h'.mask);
      }
    }
  }

  /** In every run, with fresh joins or not. */
  lemma {:induction false} RunOwned(states: seq<Host>, steps: seq<Step>, turnRate: int, i: nat)
    requires IsRun(states, steps, turnRate) && i < |states|
    ensures Owned(states[i].mask, states[i])
  {
    if i > 0 {
      RunOwned(states, steps, turnRate, i - 1);
      OwnedStep(states[i - 1], steps[i - 1], turnRate, states[i]);
    }
  }

  lemma RunMore(states: seq<Host>, steps: seq<Step>, turnRate: int, s: Step, h': Host)
    requires IsRun(states, steps, turnRate) && Next(states[|steps|], s, turnRate, h')
    ensures IsRun(states + [h'], steps + [s], turnRate)
  {
    hide Next;
  }

  /** Somebody plays under an id whose PlayerLeft event is still to come, and has nothing queued. */
  ghost predicate Exposed(h: Host, pid: Pid) {
    && Owned(h.mask, h)
    && pid in h.mask && pid in h.leaving && pid in h.players && h.players[pid].queue == []
  }

  /** Another player leaves, if still there, and the event is handled: one bit less, and the same player exposed. */
  lemma OneLeaves(states: seq<Host>, steps: seq<Step>, turnRate: int, pid: Pid, q: Pid, obs: set<Pid>)
    returns (states': seq<Host>, steps': seq<Step>)
    requires IsRun(states, steps, turnRate) && Exposed(states[|steps|], pid) && q in states[|steps|].mask - {pid}
    ensures IsRun(states', steps', turnRate) && states <= states' && steps <= steps'
    ensures Exposed(states'[|steps'|], pid) && states'[|steps'|].mask == states[|steps|].mask - {q}
  {
    var h := states[|steps|];
    states', steps' := states, steps;
    if q in h.players {
      var h1 := h.(players := h.players - {q}, leaving := h.leaving + multiset{q});
      RunMore(states, steps, turnRate, Remove(q), h1);
      states', steps' := states + [h1], steps + [Remove(q)];
      h := h1;
    }
    var h2 := h.(mask := h.mask - {q}, leaving := h.leaving - multiset{q});
    assert Next(h, Left(q, obs, []), turnRate, h2) by {
      assert pid in h.mask - {q};
    }
    RunMore(states', steps', turnRate, Left(q, obs, []), h2);
    states', steps' := states' + [h2], steps' + [Left(q, obs, [])];
  }

  lemma {:induction false} AllOthersLeave(states: seq<Host>, steps: seq<Step>, turnRate: int, pid: Pid, obs: set<Pid>)
    returns (states': seq<Host>, steps': seq<Step>)
    requires IsRun(states, steps, turnRate) && Exposed(states[|steps|], pid)
    ensures IsRun(states', steps', turnRate) && states <= states' && steps <= steps'
    ensures Exposed(states'[|steps'|], pid) && states'[|steps'|].mask == {pid}
    decreases states[|steps|].mask
  {
    hide Next, Owned;
    states', steps' := states, steps;
    if states[|steps|].mask - {pid} != {} {
      var q :| q in states[|steps|].mask - {pid};
      states', steps' := OneLeaves(states, steps, turnRate, pid, q, obs);
      states', steps' := AllOthersLeave(states', steps', turnRate, pid, obs);
    }
  }

  /**
   * In every run: once somebody joins under an id whose PlayerLeft event is still to come, the run can go on so that
   * handling that event panics.
   */
  lemma PendingJoinPanics(states: seq<Host>, steps: seq<Step>, turnRate: int, pid: Pid, obs: set<Pid>)
    returns (states': seq<Host>, steps': seq<Step>)
    requires IsRun(states, steps, turnRate)
    requires var h := states[|steps|]; !h.started && pid !in h.players && pid in h.leaving
    ensures IsRun(states', steps', turnRate) && steps + [Join(pid)] <= steps' && states <= states'
    ensures var h, s := states'[|steps'|], Left(pid, obs, []);
      CallsDrain(h, s) && DrainPanics(BeforeDrain(h, s, turnRate), pid)
  {
    hide Next;
    RunOwned(states, steps, turnRate, |steps|);
    var h := states[|steps|];
    var h1 := h.(players := h.players[pid := Seat([], [], 0)], mask := h.mask + {pid});
    assert Next(h, Join(pid), turnRate, h1) by {
      JoinIsNext(h, pid, turnRate);
    }
    RunMore(states, steps, turnRate, Join(pid), h1);
    states', steps' := AllOthersLeave(states + [h1], steps + [Join(pid)], turnRate, pid, obs);
    var last := states'[|steps'|];
    assert last.players[pid].queue == [];
  }

  lemma JoinIsNext(h: Host, pid: Pid, turnRate: int)
    requires !h.started && pid !in h.players
    ensures Next(h, Join(pid), turnRate, h.(players := h.players[pid := Seat([], [], 0)], mask := h.mask + {pid}))
  {
  }

  // ---- The drain never panics ---------------------------------------------

  /** drainAcks has an outcome exactly where it does not panic. */
  lemma DrainsUnlessPanics(h: Host, pid: Pid, obs: set<Pid>)
    ensures (exists vs, h' :: DrainAcks(h, pid, obs, vs, h')) <==> !DrainPanics(h, pid)
  {
    if h.mask == {pid} {
      if AllQueued(h.players) {
        var vs, ps', mask' := DrainEnds(h.players, obs);
        assert DrainAcks(h, pid, obs, vs, h.(players := ps', mask := mask'));
      }
    } else {
      assert DrainAcks(h, pid, obs, [], h.(mask := h.mask - {pid}));
    }
  }

  lemma StepNeverPanics(h: Host, s: Step, turnRate: int)
    requires Inv(h) && CallsDrain(h, s) && !LateLeft(h, s)
    ensures !DrainPanics(BeforeDrain(h, s, turnRate), s.pid)
  {
    ReadyToDrain(h, s, turnRate);
  }

  /** In every run with fresh joins every call of drainAcks that can come next ends without its panic. */
  lemma RunNeverPanics(states: seq<Host>, steps: seq<Step>, turnRate: int, i: nat, s: Step)
    requires IsRun(states, steps, turnRate) && FreshJoins(states, steps, turnRate)
    requires i < |states| && CallsDrain(states[i], s)
    ensures !DrainPanics(BeforeDrain(states[i], s, turnRate), s.pid)
    ensures exists vs, h' :: DrainAcks(BeforeDrain(states[i], s, turnRate), s.pid, s.obs, vs, h')
  {
    RunKeepsInv(states, steps, turnRate, i);
    StepNeverPanics(states[i], s, turnRate);
    DrainsUnlessPanics(BeforeDrain(states[i], s, turnRate), s.pid, s.obs);
  }

  // ---- Lock-step agreement ------------------------------------------------

  /** The acks of one player, compared first. */
  function Received(s: Seat): seq<Checksum> {
    s.log + s.queue
  }

  /** Acks are compared in the order received, none twice and none skipped. */
  lemma StepConservesAcks(h: Host, s: Step, turnRate: int, h': Host, p: Pid)
    requires Next(h, s, turnRate, h') && p in h.players && p in h'.players
    ensures Received(h'.players[p]) ==
      Received(h.players[p]) + (if s.Ack? && s.pid == p && |h.players[p].queue| < RING_SIZE then [s.sum] else [])
    ensures h.players[p].log <= h'.players[p].log
  {
    hide DrainAcks, TooFarAhead;
    if s.Ack? && s.pid == p {
      assert h.players[p].log + (h.players[p].queue + [s.sum]) == Received(h.players[p]) + [s.sum];
    }
    if CallsDrain(h, s) {
      DrainConservesAcks(BeforeDrain(h, s, turnRate), s.pid, s.obs, s.vs, h', p);
      BeforeDrainSeat(h, s, turnRate, p);
    }
    assert Received(h.players[p]) + [] == Received(h.players[p]);
  }

  /** The seat that a player has when the drain begins. */
  lemma BeforeDrainSeat(h: Host, s: Step, turnRate: int, p: Pid)
    requires CallsDrain(h, s) && p in BeforeDrain(h, s, turnRate).players
    ensures p in h.players
    ensures BeforeDrain(h, s, turnRate).players[p] ==
      if s.Ack? && s.pid == p then Enqueue(h.players[p], s.sum) else h.players[p]
  {
    hide TooFarAhead;
  }

  lemma DrainConservesAcks(h: Host, pid: Pid, obs: set<Pid>, vs: seq<Checksum>, h': Host, p: Pid)
    requires DrainAcks(h, pid, obs, vs, h') && p in h'.players
    ensures p in h.players && Received(h'.players[p]) == Received(h.players[p])
    ensures h.players[p].log <= h'.players[p].log
  {
    if h.mask == {pid} {
      DrainSurvivors(h.players, obs, vs, h'.players, h'.mask);
      AfterConserves(h.players[p], vs);
    }
  }

  lemma AfterConserves(s: Seat, vs: seq<Checksum>)
    requires vs <= s.queue
    ensures Received(After(s, vs)) == Received(s)
  {
    assert s.queue == vs + s.queue[|vs|..];
    assert s.log + (vs + s.queue[|vs|..]) == s.log + vs + s.queue[|vs|..];
  }

  /** All players still in the game have had the same acks compared, and nothing received is lost. */
  lemma RunAgrees(states: seq<Host>, steps: seq<Step>, turnRate: int, i: nat, p: Pid, q: Pid)
    requires IsRun(states, steps, turnRate) && FreshJoins(states, steps, turnRate)
    requires i < |states| && p in states[i].players && q in states[i].players
    ensures states[i].players[p].log == states[i].players[q].log
    ensures states[i].players[p].tick == |Received(states[i].players[p])| % UINT32
    ensures |states[i].players[p].queue| <= RING_SIZE
  {
    RunKeepsInv(states, steps, turnRate, i);
  }

  // ---- Progress, and where the code loses it ------------------------------

  /** As long as this holds some ack can still trigger the next comparison. */
  ghost predicate Live(h: Host) {
    h.mask == {} ==> h.players == map[]
  }

  lemma DrainLive(h: Host, pid: Pid, obs: set<Pid>, vs: seq<Checksum>, h': Host)
    requires DrainAcks(h, pid, obs, vs, h') && Live(h)
    ensures Live(h')
  {
    hide Drained;
    if h.mask - {pid} == {} && pid in h.mask {
      DrainSurvivors(h.players, obs, vs, h'.players, h'.mask);
    }
  }

  /** A step that drops the stragglers leaves nobody live exactly if there were only stragglers. */
  lemma DropLiveIff(h: Host, s: Step, turnRate: int, h': Host)
    requires CallsDrain(h, s) && Drops(h, s, turnRate) && Next(h, s, turnRate, h')
    ensures Live(h') <==> forall p | p in h.players :: p in h.mask
  {
    hide Drained, Refused, TooFarAhead;
    var h1 := BeforeDrain(h, s, turnRate);
    assert h1.mask == {} && h' == h1;
    assert h1.players.Keys == h.players.Keys - h.mask;
    if p :| p in h.players && p !in h.mask {
      assert p in h1.players.Keys;
    } else {
      assert h1.players.Keys == {};
    }
  }

  lemma OthersLive(h: Host, s: Step, turnRate: int, h': Host)
    requires Live(h) && Next(h, s, turnRate, h') && !(CallsDrain(h, s) && Drops(h, s, turnRate))
    ensures Live(h')
  {
    hide Drained, Refused, TooFarAhead;
    if CallsDrain(h, s) {
      var h1 := BeforeDrain(h, s, turnRate);
      assert h1.mask == h.mask && h1.players.Keys == h.players.Keys;
      assert h1.players == map[] <==> h1.players.Keys == {};
      assert h.players == map[] <==> h.players.Keys == {};
      DrainLive(h1, s.pid, s.obs, s.vs, h');
    }
  }

  /** A step keeps the game live unless it drops the stragglers while other players remain. */
  lemma LiveIff(h: Host, s: Step, turnRate: int, h': Host)
    requires Live(h) && Next(h, s, turnRate, h')
    ensures Live(h') <==> !(CallsDrain(h, s) && Drops(h, s, turnRate) && exists p :: p in h.players && p !in h.mask)
  {
    hide Next, Live, CallsDrain, Drops;
    if CallsDrain(h, s) && Drops(h, s, turnRate) {
      DropLiveIff(h, s, turnRate, h');
    } else {
      OthersLive(h, s, turnRate, h');
    }
  }

  /** Once the stragglers are dropped the mask stays empty and no ack is ever compared again. */
  lemma {:induction false} StallsForever(states: seq<Host>, steps: seq<Step>, turnRate: int, i: nat, j: nat, p: Pid)
    requires IsRun(states, steps, turnRate) && i <= j < |states|
    requires states[i].started && states[i].mask == {}
    ensures states[j].started && states[j].mask == {}
    ensures p in states[j].players ==> p in states[i].players && states[j].players[p].log == states[i].players[p].log
  {
    if i < j {
      StallsForever(states, steps, turnRate, i, j - 1, p);
      assert Next(states[j - 1], steps[j - 1], turnRate, states[j]);
    }
  }

  // ---- Which acks are used, and how far the comparison gets ---------------

  /** Stragglers are dropped from 2000 queued acks on, or above 30 seconds' worth of them, whichever is less. */
  lemma TooFarAheadIff(queue: nat, turnRate: int)
    ensures TooFarAhead(queue, turnRate) <==> queue >= 2000 || (turnRate > 0 && queue >= 30 * turnRate + 1)
  {
    if turnRate > 0 && queue < 2000 {
      TurnsPerSecond(queue, turnRate);
    }
  }

  lemma TurnsPerSecond(queue: nat, rate: nat)
    requires 0 < rate && queue < 2000
    ensures queue * 1_000_000_000 / rate > 30_000_000_000 <==> queue >= 30 * rate + 1
  {
    var d := queue * 1_000_000_000 / rate;
    assert queue * 1_000_000_000 == d * rate + queue * 1_000_000_000 % rate;
    Scaled(d, 30_000_000_000, rate);
    Scaled(30_000_000_001, d, rate);
  }

  lemma Scaled(a: nat, b: nat, rate: nat)
    ensures a <= b ==> a * rate <= b * rate
  {
  }

  /**
   * An ack of a turn that has been sent clears the sender's bit or is compared at once. One of a turn yet to be sent is
   * only queued: no bit changes, and nothing is compared.
   */
  lemma AckIsUsedIff(h: Host, pid: Pid, sum: Checksum, obs: set<Pid>, vs: seq<Checksum>, turnRate: int, h': Host)
    requires Next(h, Ack(pid, sum, obs, vs), turnRate, h')
    requires pid in h.players && |h.players[pid].queue| < RING_SIZE && h.players[pid].tick + 1 < UINT32
    ensures h.players[pid].tick < h.tick ==>
      pid !in h'.mask || (pid in h'.players && |h'.players[pid].log| > |h.players[pid].log|)
    ensures h.players[pid].tick >= h.tick ==>
      && h'.mask == h.mask && h'.players.Keys == h.players.Keys
      && forall p | p in h.players :: h'.players[p].log == h.players[p].log
  {
    hide Drained, TooFarAhead;
    var s := Ack(pid, sum, obs, vs);
    if h.players[pid].tick < h.tick {
      var h1 := BeforeDrain(h, s, turnRate);
      if h1.mask == {pid} {
        DrainSurvivors(h1.players, obs, vs, h'.players, h'.mask);
        if pid in h'.mask {
          BeforeDrainSeat(h, s, turnRate, pid);
        }
      }
    }
  }

  function Turns(steps: seq<Step>): nat {
    if steps == [] then 0 else Turns(steps[..|steps| - 1]) + if steps[|steps| - 1].Advance? then 1 else 0
  }

  /** The host's tick is the number of turns sent, modulo 2^32. */
  lemma {:induction false} TickCountsTurns(states: seq<Host>, steps: seq<Step>, turnRate: int, i: nat)
    requires IsRun(states, steps, turnRate) && i < |states|
    ensures states[i].tick == Turns(steps[..i]) % UINT32
  {
    hide Next;
    if i > 0 {
      TickCountsTurns(states, steps, turnRate, i - 1);
      ModSucc(Turns(steps[..i - 1]));
      assert steps[..i][..i - 1] == steps[..i - 1];
      TickStep(states[i - 1], steps[i - 1], turnRate, states[i]);
    }
  }

  lemma TickStep(h: Host, s: Step, turnRate: int, h': Host)
    requires Next(h, s, turnRate, h')
    ensures h'.tick == if s.Advance? then (h.tick + 1) % UINT32 else h.tick
  {
    hide Drained, TooFarAhead;
  }

  /** Every bit of a live player stands for an empty queue, and there is one unless nobody plays. */
  ghost predicate Tight(h: Host) {
    Live(h) && forall p | p in h.players && p in h.mask :: h.players[p].queue == []
  }

  /** A straggler acks a turn that has not been sent. */
  ghost predicate Ahead(h: Host, s: Step) {
    && s.Ack? && s.pid in h.players && s.pid in h.mask && |h.players[s.pid].queue| < RING_SIZE
    && (h.players[s.pid].tick + 1) % UINT32 > h.tick
  }

  /** Stragglers are dropped and others stay: the ack is of a turn sent, and too many of the sender's are queued. */
  ghost predicate Cuts(h: Host, s: Step, turnRate: int) {
    && (exists p :: p in h.players && p !in h.mask)
    && match s
       case Ack(pid, _, _, _) =>
         && pid in h.players && |h.players[pid].queue| < RING_SIZE && (h.players[pid].tick + 1) % UINT32 <= h.tick
         && var queue := |h.players[pid].queue| + 1;
            queue >= 2000 || (turnRate > 0 && queue >= 30 * turnRate + 1)
       case StrayAck(pid, drops, _, _) => h.started && pid !in h.players && drops
       case _ => false
  }

  lemma DrainTight(h: Host, pid: Pid, obs: set<Pid>, vs: seq<Checksum>, h': Host)
    requires DrainAcks(h, pid, obs, vs, h') && Live(h)
    requires forall p | p in h.players && p in h.mask && p != pid :: h.players[p].queue == []
    ensures Tight(h')
  {
    hide Drained;
    DrainLive(h, pid, obs, vs, h');
    if h.mask == {pid} {
      DrainSurvivors(h.players, obs, vs, h'.players, h'.mask);
    }
  }

  /** Exactly which steps loosen that: a straggler's ack ahead of the game, and a drop that leaves others. */
  lemma TightIff(h: Host, s: Step, turnRate: int, h': Host)
    requires Tight(h) && Next(h, s, turnRate, h')
    ensures Tight(h') <==> !Ahead(h, s) && !Cuts(h, s, turnRate)
  {
    hide Drained, TooFarAhead;
    LiveIff(h, s, turnRate, h');
    if s.Ack? && s.pid in h.players {
      TooFarAheadIff(|h.players[s.pid].queue| + 1, turnRate);
    }
    if CallsDrain(h, s) {
      var h1 := BeforeDrain(h, s, turnRate);
      if Drops(h, s, turnRate) {
        assert h' == h1 && h'.mask == {};
      } else {
        assert h1.players.Keys == h.players.Keys && h1.mask == h.mask;
        assert Live(h1);
        DrainTight(h1, s.pid, s.obs, s.vs, h');
      }
    } else if Ahead(h, s) {
      assert s.pid in h'.players && h'.players[s.pid].queue != [] && s.pid in h'.mask;
    }
  }

  /** Everybody acks turns that have been sent, and nobody so many more than the others that these are dropped. */
  ghost predicate Steady(states: seq<Host>, steps: seq<Step>, turnRate: int)
    requires IsRun(states, steps, turnRate)
  {
    forall i | 0 <= i < |steps| :: !Ahead(states[i], steps[i]) && !Cuts(states[i], steps[i], turnRate)
  }

  lemma {:induction false} RunKeepsTight(states: seq<Host>, steps: seq<Step>, turnRate: int, i: nat)
    requires IsRun(states, steps, turnRate) && Steady(states, steps, turnRate) && i < |states|
    ensures Tight(states[i])
  {
    hide Next, Ahead, Cuts;
    if i > 0 {
      RunKeepsTight(states, steps, turnRate, i - 1);
      assert Next(states[i - 1], steps[i - 1], turnRate, states[i]);
      TightIff(states[i - 1], steps[i - 1], turnRate, states[i]);
    }
  }

  /**
   * The comparison keeps up with the slowest: in every steady run with fresh joins, while no PlayerLeft is pending, the
   * number of acks compared is the least number received from anybody in the game.
   */
  lemma ComparesAllItCan(states: seq<Host>, steps: seq<Step>, turnRate: int, i: nat, p: Pid)
    requires IsRun(states, steps, turnRate) && FreshJoins(states, steps, turnRate)
    requires Steady(states, steps, turnRate) && i < |states|
    requires p in states[i].players && states[i].leaving == multiset{}
    ensures forall q | q in states[i].players :: |states[i].players[p].log| <= |Received(states[i].players[q])|
    ensures exists q :: q in states[i].players && |states[i].players[p].log| == |Received(states[i].players[q])|
  {
    hide Next, Steady;
    RunKeepsInv(states, steps, turnRate, i);
    RunKeepsTight(states, steps, turnRate, i);
    var h := states[i];
    assert h.mask != {};
    var q :| q in h.mask;
    assert q in h.players && h.players[q].queue == [];
    assert h.players[p].log == h.players[q].log;
  }

  // ---- Why an ack has to be one step --------------------------------------

  /** Between the two locks of an ack its queue entry may be used up. drainAcks(pid) then breaks
      the invariant, or panics at once: exactly when the player is live, straggling and has nothing queued. */
  lemma DrainSafeIff(h: Host, pid: Pid, obs: set<Pid>)
    requires Ready(h)
    ensures (!DrainPanics(h, pid) && forall vs, h' | DrainAcks(h, pid, obs, vs, h') :: Ready(h'))
      <==> (pid in h.mask && pid in h.players ==> h.players[pid].queue != [])
  {
    if pid in h.mask && pid in h.players && h.players[pid].queue == [] {
      if h.mask != {pid} {
        var h' := h.(mask := h.mask - {pid});
        assert DrainAcks(h, pid, obs, [], h') && !Ready(h');
      }
    } else {
      forall vs, h' | DrainAcks(h, pid, obs, vs, h')
        ensures Ready(h')
      {
        if h.mask == {pid} {
          DrainSurvivors(h.players, obs, vs, h'.players, h'.mask);
        }
      }
    }
  }

  /** Such an interleaving, first half: player 1 has queued an ack but not yet ticked while player 2
      acks twice; both queues end up empty and both bits set. */
  lemma SplitAckOverdrains(c: Checksum, turnRate: int) returns (states: seq<Host>, h1: Host)
    ensures IsRun(states, [Join(1), Join(2), Start, Advance, Advance, Ack(1, c, {}, [])], turnRate)
    ensures var h0 := states[6];
      && 1 in h0.players && 2 in h0.players
      && DrainAcks(Enqueued(Enqueued(h0, 1, c), 2, c), 2, {}, [c], h1)
      && 2 in h1.players
      && DrainAcks(Enqueued(h1, 2, c), 2, {}, [c], Pair(Seat([], [c, c], 2), Seat([], [c, c], 2), {1, 2}))
  {
    states := SplitStart(c, turnRate);
    PairEnqueue(Seat([c], [], 1), Seat([], [], 0), c);
    h1 := Pair(Seat([c], [c], 2), Seat([], [c], 1), {2});
    FirstRound(c);
    PairAck(h1.players[1], h1.players[2], c);
    SecondRound(c);
  }

  /** Two players in a game of two turns, the first of whom has acked. */
  lemma SplitStart(c: Checksum, turnRate: int) returns (states: seq<Host>)
    ensures IsRun(states, [Join(1), Join(2), Start, Advance, Advance, Ack(1, c, {}, [])], turnRate)
    ensures states[6] == Pair(Seat([c], [], 1), Seat([], [], 0), {2})
  {
    var no := Seat([], [], 0);
    var ps: Seats := map[1 := no, 2 := no];
    var both: set<Pid> := {1, 2};
    var two := Host(ps, both, multiset{}, false, 0);
    var one := Host(map[1 := no], {1}, multiset{}, false, 0);
    var last := two.(started := true, tick := 2);
    var h := Pair(Seat([c], [], 1), no, {2});
    assert both - {1} == {2};
    assert map[][1 := no] == one.players && one.players[2 := no] == ps && {1} + {2} == both;
    assert Next(INITIAL, Join(1), turnRate, one) && Next(one, Join(2), turnRate, two);
    OneIsNotAhead(turnRate);
    assert Enqueue(no, c) == Seat([c], [], 1);
    assert Enqueued(last, 1, c) == h.(mask := both);
    assert Next(last, Ack(1, c, {}, []), turnRate, h);
    states := [INITIAL, one, two, two.(started := true), two.(started := true, tick := 1), last, h];
  }

  lemma OneIsNotAhead(turnRate: int)
    ensures !TooFarAhead(1, turnRate)
  {
  }

  /** Second half: player 1's tick arrives late and the next ack of player 2 panics. */
  lemma SplitAckPanics(c: Checksum) returns (h3: Host)
    ensures DrainAcks(Pair(Seat([], [c, c], 2), Seat([], [c, c], 2), {1, 2}), 1, {}, [], h3)
    ensures 2 in h3.players && DrainPanics(Enqueued(h3, 2, c), 2)
  {
    var both: set<Pid> := {1, 2};
    assert both - {1} == {2};
    h3 := Pair(Seat([], [c, c], 2), Seat([], [c, c], 2), {2});
    assert Enqueued(h3, 2, c).players[1].queue == [];
  }

  lemma FirstRound(c: Checksum)
    ensures DrainAcks(Pair(Enqueue(Seat([c], [], 1), c), Enqueue(Seat([], [], 0), c), {2}), 2, {}, [c],
                      Pair(Seat([c], [c], 2), Seat([], [c], 1), {2}))
  {
    PairRound(Seat([c, c], [], 2), Seat([c], [], 1), c);
    assert Enqueue(Seat([c], [], 1), c) == Seat([c, c], [], 2);
    assert Enqueue(Seat([], [], 0), c) == Seat([c], [], 1);
    assert Pop(Seat([c, c], [], 2)) == Seat([c], [c], 2);
    assert Pop(Seat([c], [], 1)) == Seat([], [c], 1);
  }

  lemma SecondRound(c: Checksum)
    ensures DrainAcks(Pair(Seat([c], [c], 2), Enqueue(Seat([], [c], 1), c), {2}), 2, {}, [c],
                      Pair(Seat([], [c, c], 2), Seat([], [c, c], 2), {1, 2}))
  {
    PairRound(Seat([c], [c], 2), Seat([c], [c], 2), c);
    assert Enqueue(Seat([], [c], 1), c) == Seat([c], [c], 2);
    assert Pop(Seat([c], [c], 2)) == Seat([], [c, c], 2);
  }

  function Pair(a: Seat, b: Seat, mask: set<Pid>): Host {
    Host(map[1 := a, 2 := b], mask, multiset{}, true, 2)
  }

  lemma PairEnqueue(a: Seat, b: Seat, c: Checksum)
    ensures Enqueued(Enqueued(Pair(a, b, {2}), 1, c), 2, c) == Pair(Enqueue(a, c), Enqueue(b, c), {2})
  {
  }

  lemma PairAck(a: Seat, b: Seat, c: Checksum)
    ensures Enqueued(Pair(a, b, {2}), 2, c) == Pair(a, Enqueue(b, c), {2})
  {
  }

  /** A drain of two players that agree, the second of which has its last ack compared. */
  lemma PairRound(a: Seat, b: Seat, c: Checksum)
    requires a.queue != [] && a.queue[0] == c && b.queue == [c]
    ensures DrainAcks(Pair(a, b, {2}), 2, {}, [c],
                      Pair(Pop(a), Pop(b), if |a.queue| == 1 then {1, 2} else {2}))
  {
    var ps := Pair(a, b, {2}).players;
    assert AllQueued(ps);
    var heads := Heads(ps);
    assert heads[1] == c;
    assert heads.Values == {c};
    var next := Round(ps, c);
    assert next == map[1 := Pop(a), 2 := Pop(b)];
    assert Stragglers(next) == if |a.queue| == 1 then {1, 2} else {2};
    assert Drained(ps, {}, [c], next, Stragglers(next));
  }
}
