// Teams and colours of a lobby (network/lobby/lobby.go); teams only without custom forces.

module LobbyTeams {
  import opened Options
  import opened SlotTable
  import opened Lobbies

  /** Melee teams: fewer player slots than the observer team's number, and at most 32. */
  predicate MeleeConfig(cfg: Config) {
    !cfg.customForces && cfg.numPlayers <= cfg.obsTeam && cfg.numPlayers <= 32
  }

  predicate LegalTeam(cfg: Config, t: nat) {
    t < cfg.numPlayers || (t == cfg.obsTeam && cfg.obsTeam != OBS_DISABLED)
  }

  ghost predicate TeamInv(cfg: Config, l: Lobby) {
    && |l.slots| == |l.base|
    && (forall i | 0 <= i < |l.base| :: !l.base[i].status.SlotOccupied?)
    && (forall i | 0 <= i < |l.slots| && l.slots[i].status.SlotOccupied? :: LegalTeam(cfg, l.slots[i].team))
    && |PlayerSlots(cfg, l.slots)| <= cfg.numPlayers
  }

  // ---- Counting -----------------------------------------------------------

  lemma PlayerSlotsUpdate(cfg: Config, slots: Slots, sid: nat, s: SlotData)
    requires sid < |slots|
    ensures PlayerSlots(cfg, slots[sid := s]) ==
            PlayerSlots(cfg, slots) - {sid} + if IsPlayer(cfg, s) then {sid} else {}
  {
  }

  lemma CountAfter(cfg: Config, slots: Slots, sid: nat, s: SlotData)
    requires sid < |slots|
    ensures |PlayerSlots(cfg, slots[sid := s])| ==
            |PlayerSlots(cfg, slots)| - (if IsPlayer(cfg, slots[sid]) then 1 else 0) + if IsPlayer(cfg, s) then 1 else 0
  {
    PlayerSlotsUpdate(cfg, slots, sid, s);
    assert sid in PlayerSlots(cfg, slots) <==> IsPlayer(cfg, slots[sid]);
  }

  /** A swap of whole teams moves players about and counts them the same. */
  lemma SwapCount(cfg: Config, slots: Slots, a: nat, b: nat, swapTeams: bool)
    requires a < |slots| && b < |slots|
    requires swapTeams || slots[a].status.SlotOccupied? == slots[b].status.SlotOccupied?
    ensures |PlayerSlots(cfg, Swap(cfg, slots, a, b, swapTeams))| == |PlayerSlots(cfg, slots)|
  {
    var r := Swap(cfg, slots, a, b, swapTeams);
    if a != b {
      CountAfter(cfg, slots, a, r[a]);
      CountAfter(cfg, slots[a := r[a]], b, r[b]);
      assert r == slots[a := r[a]][b := r[b]];
    } else {
      assert r == slots;
    }
  }

  // ---- Teams --------------------------------------------------------------

  /** Pigeonhole: below the player limit initSlot finds a team below the limit that nobody plays for. */
  lemma FreeTeamFits(cfg: Config, slots: Slots)
    requires cfg.numPlayers <= 32 && |PlayerSlots(cfg, slots)| < cfg.numPlayers
    ensures FreeTeam(cfg, slots) < cfg.numPlayers && FreeTeam(cfg, slots) !in UsedTeams(cfg, slots)
  {
    UsedTeamsFew(cfg, slots, PlayerSlots(cfg, slots));
    Pigeonhole(UsedTeams(cfg, slots), 0, 32);
  }

  /** initSlot succeeds iff there is room for a player or for an observer; a player gets a team of their own. */
  lemma InitSlotTeam(cfg: Config, l: Lobby, sid: nat)
    requires MeleeConfig(cfg) && sid < |l.base|
    ensures InitSlot(cfg, l, sid).Some? <==>
            |PlayerSlots(cfg, l.slots)| < cfg.numPlayers || cfg.obsTeam != OBS_DISABLED
    ensures InitSlot(cfg, l, sid).Some? && |PlayerSlots(cfg, l.slots)| < cfg.numPlayers ==>
            var t := InitSlot(cfg, l, sid).value.team; t < cfg.numPlayers && t !in UsedTeams(cfg, l.slots)
    ensures InitSlot(cfg, l, sid).Some? && |PlayerSlots(cfg, l.slots)| >= cfg.numPlayers ==>
            InitSlot(cfg, l, sid).value.team == cfg.obsTeam
  {
    if |PlayerSlots(cfg, l.slots)| < cfg.numPlayers {
      FreeTeamFits(cfg, l.slots);
    }
  }

  /** A slot's new content keeps the teams if it is no one, or has a legal team and there is room. */
  lemma PutKeepsTeams(cfg: Config, l: Lobby, sid: nat, s: SlotData)
    requires TeamInv(cfg, l) && sid < |l.slots|
    requires s.status.SlotOccupied? ==> LegalTeam(cfg, s.team)
    requires IsPlayer(cfg, s) && !IsPlayer(cfg, l.slots[sid]) ==> |PlayerSlots(cfg, l.slots)| < cfg.numPlayers
    ensures TeamInv(cfg, l.(slots := l.slots[sid := s]))
  {
    CountAfter(cfg, l.slots, sid, s);
  }

  lemma StatusKeepsTeams(cfg: Config, l: Lobby, sid: nat, status: SlotStatus)
    requires TeamInv(cfg, l) && sid < |l.slots| && !status.SlotOccupied?
    ensures TeamInv(cfg, SetStatus(l, sid, status))
  {
    var r := l.(base := l.base[sid := l.base[sid].(status := status)]);
    assert TeamInv(cfg, r);
    PutKeepsTeams(cfg, r, sid, r.slots[sid].(status := status));
    PutKeepsTeams(cfg, r, sid, r.base[sid]);
  }

  lemma SwapKeepsTeams(cfg: Config, l: Lobby, a: nat, b: nat)
    requires TeamInv(cfg, l) && a < |l.slots| && b < |l.slots|
    ensures TeamInv(cfg, l.(slots := Swap(cfg, l.slots, a, b, true)))
  {
    SwapCount(cfg, l.slots, a, b, true);
  }

  lemma AllKeepsTeams(cfg: Config, l: Lobby, from: SlotStatus, to: SlotStatus)
    requires TeamInv(cfg, l) && !from.SlotOccupied? && !to.SlotOccupied?
    ensures TeamInv(cfg, l.(slots := SetAll(l.slots, from, to)))
  {
    assert PlayerSlots(cfg, SetAll(l.slots, from, to)) == PlayerSlots(cfg, l.slots);
  }

  lemma TeamKeepsTeams(cfg: Config, l: Lobby, sid: nat, t: nat)
    requires TeamInv(cfg, l) && sid < |l.slots|
    ensures TeamInv(cfg, SetTeam(cfg, l, sid, t))
  {
    CountAfter(cfg, l.slots, sid, l.slots[sid].(team := t));
  }

  lemma ComputerKeepsTeams(cfg: Config, l: Lobby, sid: nat, ai: nat)
    requires MeleeConfig(cfg) && TeamInv(cfg, l) && sid < |l.slots|
    ensures TeamInv(cfg, SetComputer(cfg, l, sid, ai))
  {
    InitSlotTeam(cfg, l, sid);
    var r := SetComputer(cfg, l, sid, ai);
    if r != l {
      PutKeepsTeams(cfg, l, sid, r.slots[sid]);
      assert r == l.(slots := l.slots[sid := r.slots[sid]]);
    }
  }

  lemma JoinKeepsTeams(cfg: Config, l: Lobby)
    requires MeleeConfig(cfg) && TeamInv(cfg, l)
    ensures TeamInv(cfg, Join(cfg, l))
  {
    var sid := FirstOpen(l.slots);
    if Join(cfg, l) != l {
      InitSlotTeam(cfg, l, sid);
      PutKeepsTeams(cfg, l, sid, Join(cfg, l).slots[sid]);
    }
  }

  /** Every operation but a move that leaves the teams behind keeps the player limit and the legal teams. */
  lemma StepKeepsTeams(cfg: Config, l: Lobby, e: Step)
    requires MeleeConfig(cfg) && TeamInv(cfg, l) && Enabled(l, e) && !e.DoMove?
    ensures TeamInv(cfg, Do(cfg, l, e))
  {
    match e
    case DoJoin => JoinKeepsTeams(cfg, l);
    case DoLeave(pid) => PutKeepsTeams(cfg, l, SidOf(l.slots, pid), l.base[SidOf(l.slots, pid)]);
    case DoSwap(a, b) => SwapKeepsTeams(cfg, l, a, b);
    case DoStatus(sid, status) => StatusKeepsTeams(cfg, l, sid, status);
    case DoAll(from, to) => AllKeepsTeams(cfg, l, from, to);
    case DoTeam(sid, t) => TeamKeepsTeams(cfg, l, sid, t);
    case DoColor(sid, c) => PutKeepsTeams(cfg, l, sid, l.slots[sid].(color := c));
    case DoComputer(sid, ai) => ComputerKeepsTeams(cfg, l, sid, ai);
    case DoLock(locked) =>
  }

  ghost predicate NoMoves(steps: seq<Step>) {
    forall i | 0 <= i < |steps| :: !steps[i].DoMove?
  }

  /** In every run without shuffles players never outnumber the player slots, and all play for legal teams. */
  lemma {:induction false} RunKeepsTeams(cfg: Config, states: seq<Lobby>, steps: seq<Step>, n: nat)
    requires MeleeConfig(cfg) && IsRun(cfg, states, steps) && NoMoves(steps) && n < |states|
    ensures TeamInv(cfg, states[n])
  {
    if n == 0 {
      assert PlayerSlots(cfg, states[0].slots) == {};
    } else {
      RunKeepsTeams(cfg, states, steps, n - 1);
      StepKeepsTeams(cfg, states[n - 1], steps[n - 1]);
    }
  }

  // ---- Shuffles -----------------------------------------------------------

  /** One of two slots is occupied and would get a team it must not have, or make one player too many. */
  predicate BadMove(cfg: Config, slots: Slots, from: nat, to: nat)
    requires from < |slots| && to < |slots|
  {
    && slots[from].status.SlotOccupied? && !slots[to].status.SlotOccupied?
    && (!LegalTeam(cfg, slots[to].team)
        || (slots[from].team == cfg.obsTeam && slots[to].team != cfg.obsTeam
            && |PlayerSlots(cfg, slots)| >= cfg.numPlayers))
  }

  /** Exactly when an exchange that leaves the teams behind keeps the player limit and the legal teams. */
  lemma MoveKeepsTeamsIff(cfg: Config, l: Lobby, a: nat, b: nat)
    requires TeamInv(cfg, l) && a < |l.slots| && b < |l.slots|
    ensures TeamInv(cfg, l.(slots := Swap(cfg, l.slots, a, b, false))) <==>
            !BadMove(cfg, l.slots, a, b) && !BadMove(cfg, l.slots, b, a)
  {
    var r := Swap(cfg, l.slots, a, b, false);
    if l.slots[a].status.SlotOccupied? == l.slots[b].status.SlotOccupied? {
      SwapCount(cfg, l.slots, a, b, false);
      assert TeamInv(cfg, l.(slots := r));
    } else {
      CountAfter(cfg, l.slots, a, r[a]);
      CountAfter(cfg, l.slots[a := r[a]], b, r[b]);
      assert r == l.slots[a := r[a]][b := r[b]];
    }
  }

  const ONE_PLAYER := Config(false, false, 1, 12, {0, 1})
  const NEAR := SlotData(0, 255, SlotOpen, false, 0, 0, 0, 0, 100)
  const FAR := SlotData(0, 255, SlotOpen, false, 3, 0, 0, 0, 100)
  const PLAYER := SlotData(1, 255, SlotOccupied, false, 0, 0, 0, 0, 100)
  const OBSERVER := SlotData(2, 255, SlotOccupied, false, 12, 1, 0, 0, 100)

  lemma FirstTakesTeam(l: Lobby)
    requires l == Lobby([NEAR, NEAR, FAR], [NEAR, NEAR, FAR], {}, false)
    ensures Join(ONE_PLAYER, l) == l.(slots := [PLAYER, NEAR, FAR], players := {1})
  {
    assert PlayerSlots(ONE_PLAYER, l.slots) == {};
    assert UsedTeams(ONE_PLAYER, l.slots) == {} == UsedColors(ONE_PLAYER, l.slots);
    assert ONE_PLAYER.colors - {} == {0, 1};
    assert FirstOpen(l.slots) == 0;
  }

  lemma SecondObserves(l: Lobby)
    requires l == Lobby([PLAYER, NEAR, FAR], [NEAR, NEAR, FAR], {1}, false)
    ensures Join(ONE_PLAYER, l) == l.(slots := [PLAYER, OBSERVER, FAR], players := {1, 2})
  {
    assert PlayerSlots(ONE_PLAYER, l.slots) == {0};
    assert UsedColors(ONE_PLAYER, l.slots) == {0};
    assert ONE_PLAYER.colors - {0} == {1};
    assert FirstOpen(l.slots) == 1;
    assert FreePid({1}) == 2;
  }

  /** A shuffle can turn an observer into one player too many. */
  lemma ShuffleBreaksLimit() returns (states: seq<Lobby>)
    ensures MeleeConfig(ONE_PLAYER)
    ensures IsRun(ONE_PLAYER, states, [DoJoin, DoJoin, DoMove(1, 2, false)])
    ensures |PlayerSlots(ONE_PLAYER, states[3].slots)| == 2 > ONE_PLAYER.numPlayers
  {
    var l0 := Lobby([NEAR, NEAR, FAR], [NEAR, NEAR, FAR], {}, false);
    var l1 := l0.(slots := [PLAYER, NEAR, FAR], players := {1});
    var l2 := l1.(slots := [PLAYER, OBSERVER, FAR], players := {1, 2});
    var l3 := l2.(slots := Swap(ONE_PLAYER, l2.slots, 1, 2, false));
    FirstTakesTeam(l0);
    SecondObserves(l1);
    assert PlayerSlots(ONE_PLAYER, l3.slots) == {0, 2};
    states := [l0, l1, l2, l3];
  }

  // ---- Colours ------------------------------------------------------------

  /** Observers off, colours free to choose, and a colour for every player. */
  predicate ColorConfig(cfg: Config) {
    && MeleeConfig(cfg) && !cfg.fixedSettings && cfg.obsTeam == OBS_DISABLED
    && cfg.numPlayers <= |cfg.colors|
    && forall c | c in cfg.colors :: c < 32
  }

  ghost predicate DistinctColors(cfg: Config, slots: Slots) {
    && (forall i | 0 <= i < |slots| && slots[i].status.SlotOccupied? :: slots[i].color in cfg.colors)
    && (forall i, j | 0 <= i < j < |slots| && slots[i].status.SlotOccupied? && slots[j].status.SlotOccupied? ::
          slots[i].color != slots[j].color)
  }

  ghost predicate ColorInv(cfg: Config, l: Lobby) {
    TeamInv(cfg, l) && DistinctColors(cfg, l.slots)
  }

  /** Pigeonhole: below the player limit a colour of the set is free. */
  lemma FreeColorFits(cfg: Config, slots: Slots)
    requires ColorConfig(cfg) && |PlayerSlots(cfg, slots)| < cfg.numPlayers
    ensures FreeColor(cfg, slots) in cfg.colors && FreeColor(cfg, slots) !in UsedColors(cfg, slots)
  {
    UsedTeamsFew(cfg, slots, PlayerSlots(cfg, slots));
    var free := cfg.colors - UsedColors(cfg, slots);
    if free == {} {
      assert forall c | c in cfg.colors :: c in free || c in UsedColors(cfg, slots);
      SubsetCard(cfg.colors, UsedColors(cfg, slots));
      assert false;
    }
    var c :| c in free;
    assert LeastIn(free, 0, 32) <= c;
  }

  lemma {:induction false} SubsetCard(a: set<nat>, b: set<nat>)
    requires a <= b
    ensures |a| <= |b|
  {
    if a != {} {
      var x :| x in a;
      SubsetCard(a - {x}, b - {x});
    }
  }

  /** With observers off every occupied slot counts as a player's. */
  lemma OccupiedUses(cfg: Config, l: Lobby, i: nat)
    requires ColorConfig(cfg) && TeamInv(cfg, l) && i < |l.slots| && l.slots[i].status.SlotOccupied?
    ensures l.slots[i].color in UsedColors(cfg, l.slots)
  {
    assert LegalTeam(cfg, l.slots[i].team);
    assert i in PlayerSlots(cfg, l.slots);
  }

  /** A colour nobody uses, a colour the slot already had, or an emptied slot keeps the colours distinct. */
  lemma PutKeepsColors(cfg: Config, l: Lobby, sid: nat, s: SlotData)
    requires ColorConfig(cfg) && ColorInv(cfg, l) && sid < |l.slots|
    requires s.status.SlotOccupied? ==> s.color in cfg.colors
    requires s.status.SlotOccupied? ==>
      s.color !in UsedColors(cfg, l.slots) || (l.slots[sid].status.SlotOccupied? && s.color == l.slots[sid].color)
    ensures DistinctColors(cfg, l.slots[sid := s])
  {
    forall i: nat | i < |l.slots| && l.slots[i].status.SlotOccupied?
      ensures l.slots[i].color in UsedColors(cfg, l.slots)
    {
      OccupiedUses(cfg, l, i);
    }
  }

  lemma InitSlotColor(cfg: Config, l: Lobby, sid: nat)
    requires ColorConfig(cfg) && sid < |l.base| && InitSlot(cfg, l, sid).Some?
    ensures InitSlot(cfg, l, sid).value.color in cfg.colors
    ensures InitSlot(cfg, l, sid).value.color !in UsedColors(cfg, l.slots)
  {
    InitSlotTeam(cfg, l, sid);
    FreeColorFits(cfg, l.slots);
  }

  lemma JoinKeepsColors(cfg: Config, l: Lobby)
    requires ColorConfig(cfg) && ColorInv(cfg, l)
    ensures DistinctColors(cfg, Join(cfg, l).slots)
  {
    var sid := FirstOpen(l.slots);
    if Join(cfg, l) != l {
      InitSlotColor(cfg, l, sid);
      PutKeepsColors(cfg, l, sid, Join(cfg, l).slots[sid]);
    }
  }

  lemma ComputerKeepsColors(cfg: Config, l: Lobby, sid: nat, ai: nat)
    requires ColorConfig(cfg) && ColorInv(cfg, l) && sid < |l.slots|
    ensures DistinctColors(cfg, SetComputer(cfg, l, sid, ai).slots)
  {
    if !l.slots[sid].status.SlotOccupied? && InitSlot(cfg, l, sid).Some? {
      InitSlotColor(cfg, l, sid);
      PutKeepsColors(cfg, l, sid, SetComputer(cfg, l, sid, ai).slots[sid]);
    }
  }

  lemma StatusKeepsColors(cfg: Config, l: Lobby, sid: nat, status: SlotStatus)
    requires ColorConfig(cfg) && ColorInv(cfg, l) && sid < |l.slots| && !status.SlotOccupied?
    ensures DistinctColors(cfg, SetStatus(l, sid, status).slots)
  {
    PutKeepsColors(cfg, l, sid, l.slots[sid].(status := status));
    PutKeepsColors(cfg, l, sid, l.base[sid].(status := status));
  }

  lemma ColorKeepsColors(cfg: Config, l: Lobby, sid: nat, c: nat)
    requires ColorConfig(cfg) && ColorInv(cfg, l) && sid < |l.slots|
    ensures DistinctColors(cfg, SetColor(cfg, l, sid, c).slots)
  {
    if SetColor(cfg, l, sid, c) != l {
      PutKeepsColors(cfg, l, sid, l.slots[sid].(color := c));
    }
  }

  lemma StepKeepsColors(cfg: Config, l: Lobby, e: Step)
    requires ColorConfig(cfg) && ColorInv(cfg, l) && Enabled(l, e) && !e.DoMove?
    ensures ColorInv(cfg, Do(cfg, l, e))
  {
    StepKeepsTeams(cfg, l, e);
    match e
    case DoJoin => JoinKeepsColors(cfg, l);
    case DoLeave(pid) => PutKeepsColors(cfg, l, SidOf(l.slots, pid), l.base[SidOf(l.slots, pid)]);
    case DoSwap(a, b) =>
    case DoStatus(sid, status) => StatusKeepsColors(cfg, l, sid, status);
    case DoAll(from, to) =>
    case DoTeam(sid, t) => PutKeepsColors(cfg, l, sid, l.slots[sid].(team := t));
    case DoColor(sid, c) => ColorKeepsColors(cfg, l, sid, c);
    case DoComputer(sid, ai) => ComputerKeepsColors(cfg, l, sid, ai);
    case DoLock(locked) =>
  }

  /** In every run without shuffles the occupied slots wear pairwise distinct colours of the colour set. */
  lemma {:induction false} RunKeepsColors(cfg: Config, states: seq<Lobby>, steps: seq<Step>, n: nat)
    requires ColorConfig(cfg) && IsRun(cfg, states, steps) && NoMoves(steps) && n < |states|
    ensures ColorInv(cfg, states[n])
  {
    if n == 0 {
      RunKeepsTeams(cfg, states, steps, 0);
    } else {
      RunKeepsColors(cfg, states, steps, n - 1);
      StepKeepsColors(cfg, states[n - 1], steps[n - 1]);
    }
  }

  // ---- Scans that panic ---------------------------------------------------

  /** Legal teams are small, so findEmptyTeam never panics in a melee lobby. */
  lemma TeamsAreSmall(cfg: Config, l: Lobby)
    requires MeleeConfig(cfg) && TeamInv(cfg, l)
    ensures SmallTeams(cfg, l.slots)
  {
  }

  /** With a colour for every player the scans of join, changeColor and changeComputer never panic. */
  lemma RunNeverPanics(cfg: Config, states: seq<Lobby>, steps: seq<Step>, n: nat)
    requires ColorConfig(cfg) && IsRun(cfg, states, steps) && NoMoves(steps) && n < |states|
    ensures SmallColors(cfg, states[n].slots) && !InitPanics(cfg, states[n].slots)
  {
    RunKeepsColors(cfg, states, steps, n);
    TeamsAreSmall(cfg, states[n]);
  }

  /** initSlot makes a player with a colour above 31: the base slot has one, or no colour of the set is left. */
  predicate NoColorLeft(cfg: Config, l: Lobby, sid: nat)
    requires sid < |l.base|
  {
    && (if cfg.customForces then l.base[sid].team != cfg.obsTeam else |PlayerSlots(cfg, l.slots)| < cfg.numPlayers)
    && if cfg.fixedSettings then l.base[sid].color >= 32
       else forall c | c in cfg.colors :: c in UsedColors(cfg, l.slots) || c >= 32
  }

  /** Whoever is in `s` would sit as a player, on team t, in a colour above 31. */
  predicate BadSeat(cfg: Config, s: SlotData, t: nat, color: nat) {
    s.status.SlotOccupied? && t != cfg.obsTeam && color >= 32
  }

  predicate BadExchange(cfg: Config, slots: Slots, a: nat, b: nat, swapTeams: bool)
    requires a < |slots| && b < |slots|
  {
    BadSeat(cfg, slots[b], if swapTeams then slots[b].team else slots[a].team,
            if cfg.fixedSettings then slots[a].color else slots[b].color)
  }

  /** What every state of a lobby keeps, with custom forces or without; see ForcesKept. */
  ghost predicate LobbyInv(cfg: Config, l: Lobby) {
    if cfg.customForces then
      |l.slots| == |l.base| && forall i | 0 <= i < |l.base| :: !l.base[i].status.SlotOccupied?
    else
      MeleeConfig(cfg) && TeamInv(cfg, l)
  }

  /** In every run with custom forces, and in every run of a melee lobby without shuffles. */
  lemma ForcesKept(cfg: Config, states: seq<Lobby>, steps: seq<Step>, n: nat)
    requires IsRun(cfg, states, steps) && n < |states|
    requires cfg.customForces || (MeleeConfig(cfg) && NoMoves(steps))
    ensures LobbyInv(cfg, states[n])
  {
    if cfg.customForces {
      RunKeepsSeats(cfg, states, steps, n);
    } else {
      RunKeepsTeams(cfg, states, steps, n);
    }
  }

  /** The steps after which availableColors panics. */
  predicate LosesColors(cfg: Config, l: Lobby, e: Step)
    requires |l.slots| == |l.base|
  {
    match e
    case DoJoin => !l.locked && FirstOpen(l.slots) < |l.slots| && NoColorLeft(cfg, l, FirstOpen(l.slots))
    case DoComputer(sid, _) =>
      && sid < |l.slots| && !l.slots[sid].status.SlotOccupied? && NoColorLeft(cfg, l, sid)
      && (cfg.obsTeam == OBS_DISABLED || l.base[sid].team != cfg.obsTeam)
    case DoTeam(sid, t) =>
      && sid < |l.slots| && t < cfg.numPlayers && l.slots[sid].team == cfg.obsTeam && l.slots[sid].color >= 32
      && !cfg.customForces && |PlayerSlots(cfg, l.slots)| < cfg.numPlayers
    case DoSwap(a, b) =>
      && a < |l.slots| && b < |l.slots|
      && (BadExchange(cfg, l.slots, a, b, !cfg.customForces) || BadExchange(cfg, l.slots, b, a, !cfg.customForces))
    case DoMove(a, b, swapTeams) =>
      && a < |l.slots| && b < |l.slots|
      && (BadExchange(cfg, l.slots, a, b, swapTeams) || BadExchange(cfg, l.slots, b, a, swapTeams))
    case _ => false
  }

  lemma PutSmallIff(cfg: Config, slots: Slots, sid: nat, s: SlotData)
    requires SmallColors(cfg, slots) && sid < |slots|
    ensures SmallColors(cfg, slots[sid := s]) <==> (IsPlayer(cfg, s) ==> s.color < 32)
  {
    assert slots[sid := s][sid] == s;
  }

  /** initSlot gives a colour above 31 to a player exactly when none is left. */
  lemma InitSmallIff(cfg: Config, l: Lobby, sid: nat)
    requires LobbyInv(cfg, l) && sid < |l.base| && InitSlot(cfg, l, sid).Some?
    ensures var s := InitSlot(cfg, l, sid).value; IsPlayer(cfg, s) && s.color >= 32 <==> NoColorLeft(cfg, l, sid)
  {
    if !cfg.customForces {
      InitSlotTeam(cfg, l, sid);
    }
    var free := cfg.colors - UsedColors(cfg, l.slots);
    var c := FreeColor(cfg, l.slots);
    if c == 32 {
      forall m | m in cfg.colors && m < 32
        ensures m in UsedColors(cfg, l.slots)
      {
        assert m !in free;
      }
    } else {
      assert c in free;
    }
  }

  lemma InitSucceeds(cfg: Config, l: Lobby, sid: nat)
    requires LobbyInv(cfg, l) && sid < |l.base| && NoColorLeft(cfg, l, sid)
    ensures InitSlot(cfg, l, sid).Some?
  {
    if !cfg.customForces {
      InitSlotTeam(cfg, l, sid);
    }
  }

  lemma JoinSmallIff(cfg: Config, l: Lobby)
    requires LobbyInv(cfg, l) && |l.slots| == |l.base| && SmallColors(cfg, l.slots)
    ensures SmallColors(cfg, Join(cfg, l).slots) <==> !LosesColors(cfg, l, DoJoin)
  {
    hide NoColorLeft, InitSlot, SmallColors;
    var sid := FirstOpen(l.slots);
    if !l.locked && sid < |l.slots| {
      if InitSlot(cfg, l, sid).Some? {
        InitSmallIff(cfg, l, sid);
        PutSmallIff(cfg, l.slots, sid, Join(cfg, l).slots[sid]);
      } else if NoColorLeft(cfg, l, sid) {
        InitSucceeds(cfg, l, sid);
      }
    }
  }

  lemma ComputerSmallIff(cfg: Config, l: Lobby, sid: nat, ai: nat)
    requires LobbyInv(cfg, l) && SmallColors(cfg, l.slots) && sid < |l.slots|
    ensures SmallColors(cfg, SetComputer(cfg, l, sid, ai).slots) <==> !LosesColors(cfg, l, DoComputer(sid, ai))
  {
    hide NoColorLeft, InitSlot, SmallColors;
    var r := SetComputer(cfg, l, sid, ai);
    PutSmallIff(cfg, l.slots, sid, r.slots[sid]);
    SmallAt(cfg, l.slots, sid);
    if !l.slots[sid].status.SlotOccupied? {
      if InitSlot(cfg, l, sid).Some? {
        InitSmallIff(cfg, l, sid);
      } else if NoColorLeft(cfg, l, sid) {
        InitSucceeds(cfg, l, sid);
      }
    }
  }

  lemma SmallAt(cfg: Config, slots: Slots, i: nat)
    requires SmallColors(cfg, slots) && i < |slots|
    ensures IsPlayer(cfg, slots[i]) ==> slots[i].color < 32
  {
  }

  lemma TeamSmallIff(cfg: Config, l: Lobby, sid: nat, t: nat)
    requires LobbyInv(cfg, l) && SmallColors(cfg, l.slots)
    requires sid < |l.slots| && l.slots[sid].status.SlotOccupied?
    ensures SmallColors(cfg, SetTeam(cfg, l, sid, t).slots) <==> !LosesColors(cfg, l, DoTeam(sid, t))
  {
    hide SmallColors;
    var s := l.slots[sid].(team := t);
    CountAfter(cfg, l.slots, sid, s);
    PutSmallIff(cfg, l.slots, sid, s);
    SmallAt(cfg, l.slots, sid);
  }

  lemma ExchangeSmallIff(cfg: Config, slots: Slots, a: nat, b: nat, swapTeams: bool)
    requires SmallColors(cfg, slots) && a < |slots| && b < |slots|
    ensures SmallColors(cfg, Swap(cfg, slots, a, b, swapTeams)) <==>
            !BadExchange(cfg, slots, a, b, swapTeams) && !BadExchange(cfg, slots, b, a, swapTeams)
  {
    var r := Swap(cfg, slots, a, b, swapTeams);
    assert a != b ==> r[a].color == if cfg.fixedSettings then slots[a].color else slots[b].color;
    assert IsPlayer(cfg, slots[a]) ==> slots[a].color < 32;
    if a == b {
      assert r == slots;
    } else {
      assert IsPlayer(cfg, r[a]) && r[a].color >= 32 <==> BadExchange(cfg, slots, a, b, swapTeams);
      assert IsPlayer(cfg, r[b]) && r[b].color >= 32 <==> BadExchange(cfg, slots, b, a, swapTeams);
    }
  }

  /**
   * Exactly which steps of a lobby, with custom forces or without, leave a player whom availableColors panics on: making
   * a player when no colour is left, giving a playing team to an observer who has none, and exchanges that move such a
   * colour under a player.
   */
  lemma ColorsStaySmallIff(cfg: Config, l: Lobby, e: Step)
    requires LobbyInv(cfg, l) && SmallColors(cfg, l.slots) && Enabled(l, e)
    ensures SmallColors(cfg, Do(cfg, l, e).slots) <==> !LosesColors(cfg, l, e)
  {
    hide SmallColors, LosesColors, LobbyInv;
    match e
    case DoJoin => JoinSmallIff(cfg, l);
    case DoSwap(a, b) => SwapSmallIff(cfg, l, e);
    case DoMove(a, b, swapTeams) => SwapSmallIff(cfg, l, e);
    case DoTeam(sid, t) => TeamSmallIff(cfg, l, sid, t);
    case DoComputer(sid, ai) => ComputerSmallIff(cfg, l, sid, ai);
    case _ => OthersStaySmall(cfg, l, e);
  }

  lemma SwapSmallIff(cfg: Config, l: Lobby, e: Step)
    requires SmallColors(cfg, l.slots) && Enabled(l, e) && (e.DoSwap? || e.DoMove?)
    ensures SmallColors(cfg, Do(cfg, l, e).slots) <==> !LosesColors(cfg, l, e)
  {
    hide SmallColors, BadExchange;
    ExchangeSmallIff(cfg, l.slots, e.a, e.b, if e.DoSwap? then !cfg.customForces else e.swapTeams);
  }

  lemma OthersStaySmall(cfg: Config, l: Lobby, e: Step)
    requires LobbyInv(cfg, l) && SmallColors(cfg, l.slots) && Enabled(l, e)
    requires e.DoLeave? || e.DoStatus? || e.DoAll? || e.DoColor? || e.DoLock?
    ensures SmallColors(cfg, Do(cfg, l, e).slots) && !LosesColors(cfg, l, e)
  {
    match e
    case DoLeave(pid) => PutSmallIff(cfg, l.slots, SidOf(l.slots, pid), l.base[SidOf(l.slots, pid)]);
    case DoStatus(sid, status) =>
      PutSmallIff(cfg, l.slots, sid, l.slots[sid].(status := status));
      PutSmallIff(cfg, l.slots, sid, l.base[sid].(status := status));
    case DoColor(sid, c) => PutSmallIff(cfg, l.slots, sid, l.slots[sid].(color := c));
    case _ =>
  }

  const CUSTOM_FORCES := Config(true, false, 2, 12, {0})

  /** Custom forces with a slot more than there are colours: the second player who joins gets none. */
  lemma CustomForcesPanic() returns (states: seq<Lobby>)
    ensures IsRun(CUSTOM_FORCES, states, [DoJoin, DoJoin])
    ensures !SmallColors(CUSTOM_FORCES, states[2].slots) && InitPanics(CUSTOM_FORCES, states[2].slots)
  {
    hide LobbyInv, SmallColors, SeatInv;
    var cfg := CUSTOM_FORCES;
    var l0 := Lobby([NEAR, NEAR], [NEAR, NEAR], {}, false);
    var l1 := l0.(slots := [PLAYER, NEAR], players := {1});
    CustomFirst(l0);
    states := [l0, l1, Join(cfg, l1)];
    ForcesKept(cfg, states, [DoJoin, DoJoin], 1);
    CustomFull(l1);
    ColorsStaySmallIff(cfg, l1, DoJoin);
  }

  lemma CustomFirst(l: Lobby)
    requires l == Lobby([NEAR, NEAR], [NEAR, NEAR], {}, false)
    ensures Join(CUSTOM_FORCES, l) == l.(slots := [PLAYER, NEAR], players := {1})
  {
    assert PlayerSlots(CUSTOM_FORCES, l.slots) == {};
    assert UsedColors(CUSTOM_FORCES, l.slots) == {};
    assert CUSTOM_FORCES.colors - {} == {0};
    assert FirstOpen(l.slots) == 0;
  }

  lemma CustomFull(l: Lobby)
    requires l == Lobby([PLAYER, NEAR], [NEAR, NEAR], {1}, false)
    ensures SmallColors(CUSTOM_FORCES, l.slots) && LosesColors(CUSTOM_FORCES, l, DoJoin)
  {
    assert PlayerSlots(CUSTOM_FORCES, l.slots) == {0};
    assert UsedColors(CUSTOM_FORCES, l.slots) == {0};
    assert FirstOpen(l.slots) == 1;
  }

  // A lobby for one player and observers, with a single colour.

  const ONE_COLOR := Config(false, false, 1, 12, {0})
  const PALE := SlotData(2, 255, SlotOccupied, false, 12, 32, 0, 0, 100)

  lemma PlayerTakesColor(l: Lobby)
    requires l == Lobby([NEAR, NEAR], [NEAR, NEAR], {}, false)
    ensures Join(ONE_COLOR, l) == l.(slots := [PLAYER, NEAR], players := {1})
  {
    assert PlayerSlots(ONE_COLOR, l.slots) == {};
    assert UsedTeams(ONE_COLOR, l.slots) == {} == UsedColors(ONE_COLOR, l.slots);
    assert ONE_COLOR.colors - {} == {0};
    assert FirstOpen(l.slots) == 0;
  }

  lemma ObserverGetsNone(l: Lobby)
    requires l == Lobby([PLAYER, NEAR], [NEAR, NEAR], {1}, false)
    ensures Join(ONE_COLOR, l) == l.(slots := [PLAYER, PALE], players := {1, 2})
  {
    assert PlayerSlots(ONE_COLOR, l.slots) == {0};
    assert UsedColors(ONE_COLOR, l.slots) == {0};
    assert ONE_COLOR.colors - {0} == {};
    NoneIsLast(0);
    assert FirstOpen(l.slots) == 1;
    assert FreePid({1}) == 2;
  }

  lemma {:induction false} NoneIsLast(lo: nat)
    requires lo <= 32
    ensures LeastIn({}, lo, 32) == 32
    decreases 32 - lo
  {
    if lo < 32 {
      NoneIsLast(lo + 1);
    }
  }

  /**
   * A run of a melee lobby in which player and observer trade roles. Its teams are legal and within the limit, and
   * the next scan for a colour panics.
   */
  lemma RolesTradedPanics() returns (states: seq<Lobby>)
    ensures MeleeConfig(ONE_COLOR)
    ensures IsRun(ONE_COLOR, states, [DoJoin, DoJoin, DoTeam(0, 12), DoTeam(1, 0)])
    ensures TeamInv(ONE_COLOR, states[4]) && !SmallColors(ONE_COLOR, states[4].slots)
    ensures InitPanics(ONE_COLOR, states[4].slots)
  {
    var l0 := Lobby([NEAR, NEAR], [NEAR, NEAR], {}, false);
    var l1 := l0.(slots := [PLAYER, NEAR], players := {1});
    var l2 := l1.(slots := [PLAYER, PALE], players := {1, 2});
    var l3 := l2.(slots := [PLAYER.(team := 12), PALE]);
    var l4 := l3.(slots := [PLAYER.(team := 12), PALE.(team := 0)]);
    PlayerTakesColor(l0);
    ObserverGetsNone(l1);
    RolesTraded(l2, l3, l4);
    hide Join, SetTeam, TeamInv, SmallColors, PlayerSlots;
    states := [l0, l1, l2, l3, l4];
    RunKeepsTeams(ONE_COLOR, states, [DoJoin, DoJoin, DoTeam(0, 12), DoTeam(1, 0)], 4);
  }

  lemma RolesTraded(l2: Lobby, l3: Lobby, l4: Lobby)
    requires l2 == Lobby([PLAYER, PALE], [NEAR, NEAR], {1, 2}, false)
    requires l3 == l2.(slots := [PLAYER.(team := 12), PALE])
    requires l4 == l3.(slots := [PLAYER.(team := 12), PALE.(team := 0)])
    ensures SetTeam(ONE_COLOR, l2, 0, 12) == l3 && SetTeam(ONE_COLOR, l3, 1, 0) == l4
    ensures !SmallColors(ONE_COLOR, l4.slots)
  {
    assert PlayerSlots(ONE_COLOR, l3.slots) == {};
    assert PlayerSlots(ONE_COLOR, l4.slots) == {1};
    assert l4.slots[1].color == 32 && IsPlayer(ONE_COLOR, l4.slots[1]);
    assert l3.slots == l2.slots[0 := PLAYER.(team := 12)] && l4.slots == l3.slots[1 := PALE.(team := 0)];
    assert l3.slots[1].(team := 0) == PALE.(team := 0);
  }
}
