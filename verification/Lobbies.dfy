// The slots of a lobby (network/lobby/lobby.go): who sits where, on which team and in which colour.

module Lobbies {
  import opened Options
  import opened SlotTable

  const OBS_DISABLED: nat := 255
  const COMPUTER_PID: nat := 255

  /** What is set once: the slot layout, the number of player slots, the observer team and the colours. */
  datatype Config = Config(customForces: bool, fixedSettings: bool, numPlayers: nat, obsTeam: nat, colors: set<nat>)

  datatype Lobby = Lobby(slots: seq<SlotData>, base: seq<SlotData>, players: set<nat>, locked: bool)

  type Slots = seq<SlotData>

  // ---- Scans --------------------------------------------------------------

  /** The least number from lo on that is not in s, or hi. */
  function LeastOut(s: set<nat>, lo: nat, hi: nat): (n: nat)
    requires lo <= hi
    ensures lo <= n <= hi
    ensures n < hi ==> n !in s
    ensures forall m: nat | lo <= m < n :: m in s
    decreases hi - lo
  {
    if lo == hi || lo !in s then lo else LeastOut(s, lo + 1, hi)
  }

  /** The least number from lo on that is in s, or hi. */
  function LeastIn(s: set<nat>, lo: nat, hi: nat): (n: nat)
    requires lo <= hi
    ensures lo <= n <= hi
    ensures n < hi ==> n in s
    ensures forall m: nat | lo <= m < n :: m !in s
    decreases hi - lo
  {
    if lo == hi || lo in s then lo else LeastIn(s, lo + 1, hi)
  }

  /** A set of k numbers leaves one of any k + 1 numbers out. */
  lemma {:induction false} Pigeonhole(s: set<nat>, lo: nat, hi: nat)
    requires lo <= hi
    ensures LeastOut(s, lo, hi) <= lo + |s|
    decreases hi - lo
  {
    if lo < hi && lo in s {
      Pigeonhole(s - {lo}, lo + 1, hi);
      LeastOutSame(s, s - {lo}, lo + 1, hi);
    }
  }

  lemma {:induction false} LeastOutSame(s: set<nat>, r: set<nat>, lo: nat, hi: nat)
    requires lo <= hi && forall m: nat | lo <= m :: m in s <==> m in r
    ensures LeastOut(s, lo, hi) == LeastOut(r, lo, hi)
    decreases hi - lo
  {
    if lo < hi && lo in s {
      LeastOutSame(s, r, lo + 1, hi);
    }
  }

  // ---- Counting -----------------------------------------------------------

  predicate IsPlayer(cfg: Config, s: SlotData) {
    s.status.SlotOccupied? && s.team != cfg.obsTeam
  }

  function PlayerSlots(cfg: Config, slots: Slots): set<nat> {
    set i: nat | i < |slots| && IsPlayer(cfg, slots[i])
  }

  function UsedTeams(cfg: Config, slots: Slots): set<nat> {
    set i | i in PlayerSlots(cfg, slots) :: slots[i].team
  }

  function UsedColors(cfg: Config, slots: Slots): set<nat> {
    set i | i in PlayerSlots(cfg, slots) :: slots[i].color
  }

  /** BitSet32.Set panics on a team above 31. */
  predicate SmallTeams(cfg: Config, slots: Slots) {
    forall i | 0 <= i < |slots| && IsPlayer(cfg, slots[i]) :: slots[i].team < 32
  }

  /** BitSet32.Clear panics on a colour above 31. */
  predicate SmallColors(cfg: Config, slots: Slots) {
    forall i | 0 <= i < |slots| && IsPlayer(cfg, slots[i]) :: slots[i].color < 32
  }

  /** The scans of initSlot that panic: for a colour, and for a team while the players are not complete. */
  predicate InitPanics(cfg: Config, slots: Slots) {
    || (!cfg.fixedSettings && !SmallColors(cfg, slots))
    || (!cfg.customForces && |PlayerSlots(cfg, slots)| < cfg.numPlayers && !SmallTeams(cfg, slots))
  }

  /** An image is no larger than what it is the image of. */
  lemma {:induction false} UsedTeamsFew(cfg: Config, slots: Slots, part: set<nat>)
    requires part <= PlayerSlots(cfg, slots)
    ensures |set i | i in part :: slots[i].team| <= |part|
    ensures |set i | i in part :: slots[i].color| <= |part|
    decreases |part|
  {
    if part != {} {
      var k :| k in part;
      UsedTeamsFew(cfg, slots, part - {k});
      assert (set i | i in part :: slots[i].team) == (set i | i in part - {k} :: slots[i].team) + {slots[k].team};
      assert (set i | i in part :: slots[i].color) == (set i | i in part - {k} :: slots[i].color) + {slots[k].color};
    }
  }

  // ---- Operations ---------------------------------------------------------

  function FreeTeam(cfg: Config, slots: Slots): nat {
    LeastOut(UsedTeams(cfg, slots), 0, 32)
  }

  function FreeColor(cfg: Config, slots: Slots): nat {
    LeastIn(cfg.colors - UsedColors(cfg, slots), 0, 32)
  }

  /** initSlot; None is ErrFull. */
  function InitSlot(cfg: Config, l: Lobby, sid: nat): Option<SlotData>
    requires sid < |l.base|
  {
    var b := l.base[sid];
    var color := if cfg.fixedSettings then b.color else FreeColor(cfg, l.slots);
    var t := if |PlayerSlots(cfg, l.slots)| < cfg.numPlayers then FreeTeam(cfg, l.slots) else cfg.obsTeam;
    if !cfg.customForces && t >= cfg.numPlayers && cfg.obsTeam == OBS_DISABLED then
      None
    else
      var team := if cfg.customForces then b.team else if t < cfg.numPlayers then t else cfg.obsTeam;
      Some(SlotData(COMPUTER_PID, 255, SlotOccupied, false, team, color, b.race, 0, b.handicap))
  }

  function FirstOpen(slots: Slots): (n: nat)
    ensures n <= |slots|
    ensures n < |slots| ==> slots[n].status.SlotOpen?
    ensures forall i | 0 <= i < n :: !slots[i].status.SlotOpen?
  {
    if slots == [] || slots[0].status.SlotOpen? then 0 else
      assert forall i | 0 < i < |slots| :: slots[i] == slots[1..][i - 1];
      1 + FirstOpen(slots[1..])
  }

  function FreePid(players: set<nat>): nat {
    LeastOut(players, 1, 33)
  }

  /** join; the lobby stays as it is when it is locked or full. */
  function Join(cfg: Config, l: Lobby): Lobby
    requires |l.slots| == |l.base|
  {
    var sid := FirstOpen(l.slots);
    if l.locked || sid == |l.slots| || InitSlot(cfg, l, sid).None? then l
    else
      var pid := FreePid(l.players);
      l.(slots := l.slots[sid := InitSlot(cfg, l, sid).value.(playerID := pid)], players := l.players + {pid})
  }

  /** onLeave */
  ghost function Leave(l: Lobby, pid: nat): Lobby
    requires |l.slots| == |l.base| && Seated(l.slots, pid)
  {
    var sid := SidOf(l.slots, pid);
    l.(slots := l.slots[sid := l.base[sid]], players := l.players - {pid})
  }

  predicate Selectable(race: nat) {
    race / 0x40 % 2 == 1
  }

  /** swapSlots: whole slots change places, then some fields change back. */
  function Swap(cfg: Config, slots: Slots, a: nat, b: nat, swapTeams: bool): Slots
    requires a < |slots| && b < |slots|
  {
    var keepTeams := !swapTeams;
    var keepRaces := !Selectable(slots[a].race) || !Selectable(slots[b].race);
    var newA := slots[b].(
      team := if keepTeams then slots[a].team else slots[b].team,
      color := if cfg.fixedSettings then slots[a].color else slots[b].color,
      handicap := if cfg.fixedSettings then slots[a].handicap else slots[b].handicap,
      race := if keepRaces then slots[a].race else slots[b].race);
    var newB := slots[a].(
      team := if keepTeams then slots[b].team else slots[a].team,
      color := if cfg.fixedSettings then slots[b].color else slots[a].color,
      handicap := if cfg.fixedSettings then slots[b].handicap else slots[a].handicap,
      race := if keepRaces then slots[b].race else slots[a].race);
    slots[a := newA][b := newB]
  }

  /** One exchange of a shuffle: the teams go along with two players, unless they are shuffled or custom. */
  function ShuffleOne(cfg: Config, slots: Slots, a: nat, b: nat, shuffleTeams: bool): Slots
    requires a < |slots| && b < |slots|
  {
    var occupied := slots[a].status.SlotOccupied? && slots[b].status.SlotOccupied?;
    Swap(cfg, slots, a, b, !cfg.customForces && occupied && !shuffleTeams)
  }

  /** ShuffleSlots: the exchanges that rand.Shuffle draws, one after the other. */
  function Shuffled(cfg: Config, slots: Slots, draws: seq<(nat, nat)>, shuffleTeams: bool): (r: Slots)
    requires forall k | 0 <= k < |draws| :: draws[k].0 < |slots| && draws[k].1 < |slots|
    ensures |r| == |slots|
  {
    if draws == [] then slots
    else
      var (i, j) := draws[|draws| - 1];
      ShuffleOne(cfg, Shuffled(cfg, slots, draws[..|draws| - 1], shuffleTeams), i, j, shuffleTeams)
  }

  /** changeSlotStatus; a kicked player leaves later. */
  function SetStatus(l: Lobby, sid: nat, status: SlotStatus): Lobby
    requires |l.slots| == |l.base| && sid < |l.slots| && !status.SlotOccupied?
  {
    var base := l.base[sid := l.base[sid].(status := status)];
    if !l.slots[sid].status.SlotOccupied? then
      l.(base := base, slots := l.slots[sid := l.slots[sid].(status := status)])
    else if l.slots[sid].playerID in l.players then
      l.(base := base)
    else
      l.(base := base, slots := l.slots[sid := base[sid]])
  }

  /** changeTeam; the change is taken back when it makes too many players. */
  function SetTeam(cfg: Config, l: Lobby, sid: nat, t: nat): Lobby
    requires sid < |l.slots|
  {
    var slots := l.slots[sid := l.slots[sid].(team := t)];
    if cfg.customForces || (t >= cfg.numPlayers && (cfg.obsTeam == OBS_DISABLED || t != cfg.obsTeam)) then l
    else if |PlayerSlots(cfg, slots)| > cfg.numPlayers then l
    else l.(slots := slots)
  }

  /** changeColor */
  function SetColor(cfg: Config, l: Lobby, sid: nat, c: nat): Lobby
    requires sid < |l.slots|
  {
    if c >= 32 || c !in cfg.colors || c in UsedColors(cfg, l.slots) then l
    else l.(slots := l.slots[sid := l.slots[sid].(color := c)])
  }

  /** changeComputer */
  function SetComputer(cfg: Config, l: Lobby, sid: nat, ai: nat): Lobby
    requires |l.slots| == |l.base| && sid < |l.slots|
  {
    if l.slots[sid].status.SlotOccupied? then
      if l.slots[sid].computer then l.(slots := l.slots[sid := l.slots[sid].(computerType := ai)]) else l
    else if InitSlot(cfg, l, sid).None? then l
    else if cfg.obsTeam != OBS_DISABLED && l.base[sid].team == cfg.obsTeam then
      l.(slots := l.slots[sid := l.base[sid]])
    else
      l.(slots := l.slots[sid :=
        InitSlot(cfg, l, sid).value.(downloadStatus := 100, computer := true, computerType := ai)])
  }

  /** OpenAllSlots and CloseAllSlots */
  function SetAll(slots: Slots, from: SlotStatus, to: SlotStatus): (r: Slots)
    ensures |r| == |slots|
    ensures forall i | 0 <= i < |slots| :: r[i] == if slots[i].status == from then slots[i].(status := to) else slots[i]
  {
    seq(|slots|, i requires 0 <= i < |slots| => if slots[i].status == from then slots[i].(status := to) else slots[i])
  }

  /**
   * One call under slotmut. DoSwap is SwapSlots; DoMove is one exchange of ShuffleSlots, or the move of a player
   * to an open slot of another team in onTeamChange.
   */
  datatype Step =
    | DoJoin
    | DoLeave(pid: nat)
    | DoSwap(a: nat, b: nat)
    | DoMove(a: nat, b: nat, swapTeams: bool)
    | DoStatus(sid: nat, status: SlotStatus)
    | DoAll(from: SlotStatus, to: SlotStatus)
    | DoTeam(sid: nat, t: nat)
    | DoColor(sid: nat, c: nat)
    | DoComputer(sid: nat, ai: nat)
    | DoLock(locked: bool)

  ghost predicate Enabled(l: Lobby, e: Step) {
    |l.slots| == |l.base| &&
    match e
    case DoJoin | DoLock(_) => true
    case DoLeave(pid) => pid in l.players && Seated(l.slots, pid)
    case DoSwap(a, b) => !l.locked && a < |l.slots| && b < |l.slots|
    case DoMove(a, b, _) => !l.locked && a < |l.slots| && b < |l.slots|
    case DoStatus(sid, status) => !l.locked && sid < |l.slots| && !status.SlotOccupied?
    case DoAll(from, to) => !l.locked && !from.SlotOccupied? && !to.SlotOccupied?
    case DoTeam(sid, _) => !l.locked && sid < |l.slots| && l.slots[sid].status.SlotOccupied?
    case DoColor(sid, _) => !l.locked && sid < |l.slots| && l.slots[sid].status.SlotOccupied?
    case DoComputer(sid, _) => !l.locked && sid < |l.slots|
  }

  ghost function Do(cfg: Config, l: Lobby, e: Step): Lobby
    requires Enabled(l, e)
  {
    match e
    case DoJoin => Join(cfg, l)
    case DoLeave(pid) => Leave(l, pid)
    case DoSwap(a, b) => l.(slots := Swap(cfg, l.slots, a, b, !cfg.customForces))
    case DoMove(a, b, swapTeams) => l.(slots := Swap(cfg, l.slots, a, b, swapTeams))
    case DoStatus(sid, status) => SetStatus(l, sid, status)
    case DoAll(from, to) => l.(slots := SetAll(l.slots, from, to))
    case DoTeam(sid, t) => SetTeam(cfg, l, sid, t)
    case DoColor(sid, c) => SetColor(cfg, l, sid, c)
    case DoComputer(sid, ai) => SetComputer(cfg, l, sid, ai)
    case DoLock(locked) => l.(locked := locked)
  }

  /** An empty lobby: base slots are unoccupied and carry player id 0. */
  predicate Fresh(l: Lobby) {
    && |l.base| <= 32 && l.slots == l.base && l.players == {}
    && forall i | 0 <= i < |l.base| :: Vacant(l.base[i])
  }

  predicate Vacant(s: SlotData) {
    !s.status.SlotOccupied? && s.playerID == 0 && !s.computer
  }

  ghost predicate IsRun(cfg: Config, states: seq<Lobby>, steps: seq<Step>) {
    && |states| == |steps| + 1
    && Fresh(states[0])
    && forall i | 0 <= i < |steps| :: Enabled(states[i], steps[i]) && states[i + 1] == Do(cfg, states[i], steps[i])
  }

  // ---- Seats --------------------------------------------------------------

  /** A slot is vacant, or a computer's, or that of a live player. */
  predicate SlotOk(players: set<nat>, s: SlotData) {
    if !s.status.SlotOccupied? then Vacant(s)
    else if s.computer then s.playerID == COMPUTER_PID
    else s.playerID in players
  }

  predicate DistinctSeats(slots: Slots) {
    forall i, j | 0 <= i < j < |slots| && slots[i].playerID == slots[j].playerID ::
      slots[i].playerID == 0 || slots[i].playerID == COMPUTER_PID
  }

  ghost predicate SeatInv(l: Lobby) {
    && |l.slots| == |l.base| <= 32
    && (forall i | 0 <= i < |l.base| :: Vacant(l.base[i]))
    && (forall i | 0 <= i < |l.slots| :: SlotOk(l.players, l.slots[i]))
    && DistinctSeats(l.slots)
    && (forall pid | pid in l.players :: 1 <= pid <= 32 && Seated(l.slots, pid))
  }

  /** The live player that sits in a slot, if any. */
  function Sitting(s: SlotData): set<nat> {
    if s.status.SlotOccupied? && !s.computer then {s.playerID} else {}
  }

  /** A slot's new tenant: whoever sat there is gone, and nobody else is seated twice. */
  lemma Retenant(l: Lobby, sid: nat, s: SlotData, players: set<nat>)
    requires SeatInv(l) && sid < |l.slots|
    requires players == l.players - Sitting(l.slots[sid]) + Sitting(s)
    requires SlotOk(players, s)
    requires Sitting(s) !! l.players - Sitting(l.slots[sid])
    requires forall pid | pid in Sitting(s) :: 1 <= pid <= 32
    ensures SeatInv(l.(slots := l.slots[sid := s], players := players))
  {
    var slots := l.slots[sid := s];
    forall i | 0 <= i < |slots|
      ensures SlotOk(players, slots[i])
    {
      if i != sid {
        assert SlotOk(l.players, l.slots[i]);
        assert SlotOk(l.players, l.slots[sid]);
      }
    }
    forall pid | pid in players
      ensures 1 <= pid <= 32 && Seated(slots, pid)
    {
      if pid in Sitting(s) {
        assert slots[sid].playerID == pid;
      } else {
        assert Seated(l.slots, pid);
        var i :| 0 <= i < |l.slots| && l.slots[i].playerID == pid;
        assert SlotOk(l.players, l.slots[i]);
        assert slots[i].playerID == pid;
      }
    }
    forall i | 0 <= i < |slots| && i != sid && slots[i].playerID == s.playerID
      ensures s.playerID == 0 || s.playerID == COMPUTER_PID
    {
      assert SlotOk(l.players, l.slots[i]);
      assert SlotOk(l.players, l.slots[sid]);
    }
  }

  /** Fewer live players than slots, when a slot stands open. */
  lemma {:induction false} SeatsBound(slots: Slots, pids: set<nat>, free: set<nat>)
    requires forall pid | pid in pids :: exists i: nat | i in free :: i < |slots| && slots[i].playerID == pid
    ensures |pids| <= |free|
    decreases |pids|
  {
    if pids != {} {
      var pid :| pid in pids;
      var k: nat :| k in free && k < |slots| && slots[k].playerID == pid;
      forall p | p in pids - {pid}
        ensures exists i: nat | i in free - {k} :: i < |slots| && slots[i].playerID == p
      {
        var i: nat :| i in free && i < |slots| && slots[i].playerID == p;
        assert i in free - {k};
      }
      SeatsBound(slots, pids - {pid}, free - {k});
    }
  }

  function Below(n: nat): (r: set<nat>)
    ensures forall i: nat :: i in r <==> i < n
    ensures |r| == n
  {
    if n == 0 then {} else Below(n - 1) + {n - 1}
  }

  /** The id a joining player is given is free and fits the 32 bits of the id set. */
  lemma FreePidFits(l: Lobby, sid: nat)
    requires SeatInv(l) && sid < |l.slots| && l.slots[sid].status.SlotOpen?
    ensures 1 <= FreePid(l.players) <= 32 && FreePid(l.players) !in l.players
  {
    hide SeatInv, LeastOut;
    var all := Below(|l.slots|);
    forall pid | pid in l.players
      ensures exists i: nat | i in all - {sid} :: i < |l.slots| && l.slots[i].playerID == pid
    {
      var i := SeatElsewhere(l, sid, pid);
      assert i in all - {sid};
    }
    SeatsBound(l.slots, l.players, all - {sid});
    FewSlots(l);
    Pigeonhole(l.players, 1, 33);
  }

  /** A live player sits in some slot other than an open one. */
  lemma SeatElsewhere(l: Lobby, sid: nat, pid: nat) returns (i: nat)
    requires SeatInv(l) && sid < |l.slots| && l.slots[sid].status.SlotOpen? && pid in l.players
    ensures i < |l.slots| && i != sid && l.slots[i].playerID == pid
  {
    assert Seated(l.slots, pid);
    i :| i < |l.slots| && l.slots[i].playerID == pid;
    assert SlotOk(l.players, l.slots[i]) && SlotOk(l.players, l.slots[sid]);
  }

  lemma FewSlots(l: Lobby)
    requires SeatInv(l)
    ensures |l.slots| <= 32
  {
  }

  lemma SwapKeepsSeats(cfg: Config, l: Lobby, a: nat, b: nat, swapTeams: bool)
    requires SeatInv(l) && a < |l.slots| && b < |l.slots|
    ensures SeatInv(l.(slots := Swap(cfg, l.slots, a, b, swapTeams)))
  {
    var slots := Swap(cfg, l.slots, a, b, swapTeams);
    forall i | 0 <= i < |slots|
      ensures SlotOk(l.players, slots[i])
    {
      assert SlotOk(l.players, l.slots[i]) && SlotOk(l.players, l.slots[a]) && SlotOk(l.players, l.slots[b]);
    }
    forall pid | pid in l.players
      ensures Seated(slots, pid)
    {
      assert Seated(l.slots, pid);
      var i :| 0 <= i < |l.slots| && l.slots[i].playerID == pid;
      assert slots[if i == a then b else if i == b then a else i].playerID == pid;
    }
  }

  lemma SetAllKeepsSeats(l: Lobby, from: SlotStatus, to: SlotStatus)
    requires SeatInv(l) && !from.SlotOccupied? && !to.SlotOccupied?
    ensures SeatInv(l.(slots := SetAll(l.slots, from, to)))
  {
    var slots := SetAll(l.slots, from, to);
    forall i | 0 <= i < |slots|
      ensures SlotOk(l.players, slots[i]) && slots[i].playerID == l.slots[i].playerID
    {
      assert SlotOk(l.players, l.slots[i]);
    }
    forall pid | pid in l.players
      ensures Seated(slots, pid)
    {
      assert Seated(l.slots, pid);
      var i :| 0 <= i < |l.slots| && l.slots[i].playerID == pid;
      assert slots[i].playerID == pid;
    }
  }

  lemma JoinKeepsSeats(cfg: Config, l: Lobby)
    requires SeatInv(l)
    ensures SeatInv(Join(cfg, l))
  {
    var sid := FirstOpen(l.slots);
    if Join(cfg, l) != l {
      FreePidFits(l, sid);
      var pid := FreePid(l.players);
      Retenant(l, sid, InitSlot(cfg, l, sid).value.(playerID := pid), l.players + {pid});
    }
  }

  lemma LeaveKeepsSeats(l: Lobby, pid: nat)
    requires SeatInv(l) && pid in l.players
    ensures Seated(l.slots, pid)
    ensures SeatInv(Leave(l, pid))
  {
    var sid := SidOf(l.slots, pid);
    assert SlotOk(l.players, l.slots[sid]);
    Retenant(l, sid, l.base[sid], l.players - {pid});
  }

  lemma StatusKeepsSeats(l: Lobby, sid: nat, status: SlotStatus)
    requires SeatInv(l) && sid < |l.slots| && !status.SlotOccupied?
    ensures SeatInv(SetStatus(l, sid, status))
  {
    var base := l.base[sid := l.base[sid].(status := status)];
    var r := l.(base := base);
    assert SlotOk(l.players, l.slots[sid]);
    if !l.slots[sid].status.SlotOccupied? {
      Retenant(r, sid, l.slots[sid].(status := status), l.players);
    } else if l.slots[sid].playerID !in l.players {
      Retenant(r, sid, base[sid], l.players);
    }
  }

  lemma FieldKeepsSeats(l: Lobby, sid: nat, s: SlotData)
    requires SeatInv(l) && sid < |l.slots|
    requires s.playerID == l.slots[sid].playerID && s.status == l.slots[sid].status
    requires s.computer == l.slots[sid].computer
    ensures SeatInv(l.(slots := l.slots[sid := s]))
  {
    assert SlotOk(l.players, l.slots[sid]);
    assert l.players - Sitting(l.slots[sid]) + Sitting(s) == l.players;
    Retenant(l, sid, s, l.players);
  }

  lemma ComputerKeepsSeats(cfg: Config, l: Lobby, sid: nat, ai: nat)
    requires SeatInv(l) && sid < |l.slots|
    ensures SeatInv(SetComputer(cfg, l, sid, ai))
  {
    var r := SetComputer(cfg, l, sid, ai);
    assert SlotOk(l.players, l.slots[sid]);
    if l.slots[sid].status.SlotOccupied? {
      if l.slots[sid].computer {
        FieldKeepsSeats(l, sid, r.slots[sid]);
      }
    } else if InitSlot(cfg, l, sid).Some? {
      Retenant(l, sid, r.slots[sid], l.players);
      assert r.slots == l.slots[sid := r.slots[sid]];
    }
  }

  /** Every operation keeps the seating. */
  lemma StepKeepsSeats(cfg: Config, l: Lobby, e: Step)
    requires SeatInv(l) && Enabled(l, e)
    ensures SeatInv(Do(cfg, l, e))
  {
    match e
    case DoJoin => JoinKeepsSeats(cfg, l);
    case DoLeave(pid) => LeaveKeepsSeats(l, pid);
    case DoSwap(a, b) => SwapKeepsSeats(cfg, l, a, b, !cfg.customForces);
    case DoMove(a, b, swapTeams) => SwapKeepsSeats(cfg, l, a, b, swapTeams);
    case DoStatus(sid, status) => StatusKeepsSeats(l, sid, status);
    case DoAll(from, to) => SetAllKeepsSeats(l, from, to);
    case DoTeam(sid, t) => FieldKeepsSeats(l, sid, l.slots[sid].(team := t));
    case DoColor(sid, c) => FieldKeepsSeats(l, sid, l.slots[sid].(color := c));
    case DoComputer(sid, ai) => ComputerKeepsSeats(cfg, l, sid, ai);
    case DoLock(locked) =>
  }

  lemma {:induction false} RunKeepsSeats(cfg: Config, states: seq<Lobby>, steps: seq<Step>, n: nat)
    requires IsRun(cfg, states, steps) && n < |states|
    ensures SeatInv(states[n])
  {
    if n > 0 {
      RunKeepsSeats(cfg, states, steps, n - 1);
      StepKeepsSeats(cfg, states[n - 1], steps[n - 1]);
    }
  }

  /**
   * In every reachable lobby a live player sits in exactly one slot, an occupied one that is no computer's; a
   * computer or an empty slot is never taken for a player.
   */
  lemma RunSeatsPlayers(cfg: Config, states: seq<Lobby>, steps: seq<Step>, n: nat, pid: nat)
    requires IsRun(cfg, states, steps) && n < |states| && pid in states[n].players
    ensures Seated(states[n].slots, pid)
    ensures var s := states[n].slots[SidOf(states[n].slots, pid)]; s.status.SlotOccupied? && !s.computer
    ensures forall i | 0 <= i < |states[n].slots| ::
      states[n].slots[i].playerID == pid <==> i == SidOf(states[n].slots, pid)
    ensures forall i | 0 <= i < |states[n].slots| ::
      states[n].slots[i].status.SlotOccupied? && !states[n].slots[i].computer ==>
        states[n].slots[i].playerID in states[n].players
  {
    RunKeepsSeats(cfg, states, steps, n);
    var l := states[n];
    assert Seated(l.slots, pid);
    var sid := SidOf(l.slots, pid);
    forall i | 0 <= i < |l.slots|
      ensures SlotOk(l.players, l.slots[i])
      ensures l.slots[i].playerID == pid ==> i == sid
    {
      assert SlotOk(l.players, l.slots[sid]);
    }
  }

  /** A player who joins any reachable lobby gets the least id no live player has, and it fits the id set. */
  lemma RunGivesLeastPid(cfg: Config, states: seq<Lobby>, steps: seq<Step>, n: nat)
    requires IsRun(cfg, states, steps) && n < |steps| && steps[n].DoJoin? && states[n + 1] != states[n]
    ensures exists pid: nat ::
      && 1 <= pid <= 32 && pid !in states[n].players && states[n + 1].players == states[n].players + {pid}
      && forall m: nat | 1 <= m < pid :: m in states[n].players
  {
    RunKeepsSeats(cfg, states, steps, n);
    FreePidFits(states[n], FirstOpen(states[n].slots));
    var pid := FreePid(states[n].players);
    assert states[n + 1].players == states[n].players + {pid};
  }
}
