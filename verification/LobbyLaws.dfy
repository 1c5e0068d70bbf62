// What the operations of a lobby do to its slots, and which of them undo each other (network/lobby/lobby.go).

module LobbyLaws {
  import opened Lobbies
  import LobbyTeams
  import opened Options
  import opened SlotTable

  // ---- Joining and leaving ------------------------------------------------

  /** Nobody else's slot changes. */
  ghost predicate OnlyAt(l: Lobby, r: Lobby, sid: nat) {
    && |r.slots| == |l.slots| && r.base == l.base && r.locked == l.locked
    && forall i | 0 <= i < |l.slots| && i != sid :: r.slots[i] == l.slots[i]
  }

  /** The least colour of the set that no player wears, or 32. */
  ghost predicate LeastFree(cfg: Config, slots: Slots, c: nat) {
    && c <= 32
    && (c < 32 ==> c in cfg.colors && forall i | 0 <= i < |slots| && IsPlayer(cfg, slots[i]) :: slots[i].color != c)
    && forall m | m in cfg.colors && m < c :: exists i | 0 <= i < |slots| :: IsPlayer(cfg, slots[i]) && slots[i].color == m
  }

  lemma FreeColorIs(cfg: Config, slots: Slots)
    ensures LeastFree(cfg, slots, FreeColor(cfg, slots))
  {
    var c, free := FreeColor(cfg, slots), cfg.colors - UsedColors(cfg, slots);
    forall i | 0 <= i < |slots| && IsPlayer(cfg, slots[i])
      ensures slots[i].color !in free
    {
      assert i in PlayerSlots(cfg, slots);
    }
    forall m | m in cfg.colors && m < c
      ensures exists i | 0 <= i < |slots| :: IsPlayer(cfg, slots[i]) && slots[i].color == m
    {
      assert m !in free;
      var i :| i in PlayerSlots(cfg, slots) && slots[i].color == m;
    }
  }

  /**
   * A player who joins takes the first open slot with its race and handicap, and its colour if settings are fixed; else
   * the least colour that no player wears. No other slot changes.
   */
  lemma JoinSeats(cfg: Config, l: Lobby)
    requires SeatInv(l) && Join(cfg, l) != l
    ensures var r, sid := Join(cfg, l), FirstOpen(l.slots);
      && sid < |l.slots| && OnlyAt(l, r, sid) && !l.locked
      && var s, b := r.slots[sid], l.base[sid];
         && s.status.SlotOccupied? && !s.computer && s.playerID !in l.players && r.players == l.players + {s.playerID}
         && s.downloadStatus == 255 && s.race == b.race && s.handicap == b.handicap
         && (if cfg.fixedSettings then s.color == b.color else LeastFree(cfg, l.slots, s.color))
         && (cfg.customForces ==> s.team == b.team)
  {
    FreeColorIs(cfg, l.slots);
    FreePidFits(l, FirstOpen(l.slots));
  }

  /** Exactly when a join succeeds. */
  lemma JoinSucceedsIff(cfg: Config, l: Lobby)
    requires SeatInv(l) && (cfg.customForces || LobbyTeams.MeleeConfig(cfg))
    ensures Join(cfg, l) != l <==>
            && !l.locked && (exists i | 0 <= i < |l.slots| :: l.slots[i].status.SlotOpen?)
            && (cfg.customForces || cfg.obsTeam != 255 || |PlayerSlots(cfg, l.slots)| < cfg.numPlayers)
  {
    var sid := FirstOpen(l.slots);
    if sid < |l.slots| {
      RoomIff(cfg, l, sid);
      FreePidFits(l, sid);
      assert l.slots[sid].status.SlotOpen?;
      if !l.locked && InitSlot(cfg, l, sid).Some? {
        assert Join(cfg, l).players != l.players;
      }
    }
  }

  lemma OnlyOneHas(l: Lobby, pid: nat, sid: nat)
    requires DistinctSeats(l.slots) && sid < |l.slots| && l.slots[sid].playerID == pid && 1 <= pid <= 32
    ensures Seated(l.slots, pid) && SidOf(l.slots, pid) == sid
  {
  }

  /** Leaving undoes joining, if and only if the slot had been as the base slots say. */
  lemma JoinThenLeaveIff(cfg: Config, l: Lobby)
    requires SeatInv(l) && Join(cfg, l) != l
    ensures var pid, sid := FreePid(l.players), FirstOpen(l.slots);
      && Seated(Join(cfg, l).slots, pid)
      && (Leave(Join(cfg, l), pid) == l <==> l.slots[sid] == l.base[sid])
  {
    var r, pid, sid := Join(cfg, l), FreePid(l.players), FirstOpen(l.slots);
    FreePidFits(l, sid);
    JoinKeepsSeats(cfg, l);
    OnlyOneHas(r, pid, sid);
    var back := Leave(r, pid);
    assert back.players == l.players;
    assert back.slots == l.slots[sid := l.base[sid]];
    assert l.slots[sid := l.base[sid]][sid] == l.base[sid];
    if l.slots[sid] == l.base[sid] {
      assert l.slots[sid := l.base[sid]] == l.slots;
    }
  }

  /** Empty slots are as the base slots say. */
  ghost predicate EmptyIsBase(l: Lobby) {
    |l.slots| == |l.base| && forall i | 0 <= i < |l.slots| && !l.slots[i].status.SlotOccupied? :: l.slots[i] == l.base[i]
  }

  /** The steps that can change an empty slot without its base slot: exchanges with one, and OpenAll and CloseAll. */
  ghost predicate Keeps(l: Lobby, e: Step)
    requires Enabled(l, e)
  {
    match e
    case DoSwap(a, b) => l.slots[a].status.SlotOccupied? && l.slots[b].status.SlotOccupied?
    case DoMove(a, b, _) => l.slots[a].status.SlotOccupied? && l.slots[b].status.SlotOccupied?
    case DoAll(_, _) => false
    case _ => true
  }

  lemma StepKeepsEmpty(cfg: Config, l: Lobby, e: Step)
    requires SeatInv(l) && EmptyIsBase(l) && Enabled(l, e) && Keeps(l, e)
    ensures EmptyIsBase(Do(cfg, l, e))
  {
  }

  lemma {:induction false} RunKeepsEmpty(cfg: Config, states: seq<Lobby>, steps: seq<Step>, n: nat)
    requires IsRun(cfg, states, steps) && n < |states|
    requires forall i | 0 <= i < |steps| :: Keeps(states[i], steps[i])
    ensures EmptyIsBase(states[n])
  {
    hide EmptyIsBase, Keeps, Do;
    if n == 0 {
      StartsEmpty(states[0]);
    } else {
      RunKeepsEmpty(cfg, states, steps, n - 1);
      RunKeepsSeats(cfg, states, steps, n - 1);
      assert Keeps(states[n - 1], steps[n - 1]);
      StepKeepsEmpty(cfg, states[n - 1], steps[n - 1]);
    }
  }

  lemma StartsEmpty(l: Lobby)
    requires Fresh(l)
    ensures EmptyIsBase(l)
  {
  }

  /** In every such run: a join that is followed by its leave leaves the lobby as it was. */
  lemma RunJoinThenLeave(cfg: Config, states: seq<Lobby>, steps: seq<Step>, n: nat)
    requires IsRun(cfg, states, steps) && n < |steps| && steps[n].DoJoin? && states[n + 1] != states[n]
    requires forall i | 0 <= i < |steps| :: Keeps(states[i], steps[i])
    ensures exists pid :: Enabled(states[n + 1], DoLeave(pid)) && Do(cfg, states[n + 1], DoLeave(pid)) == states[n]
  {
    RunKeepsEmpty(cfg, states, steps, n);
    RunKeepsSeats(cfg, states, steps, n);
    JoinThenLeaveIff(cfg, states[n]);
    var pid := FreePid(states[n].players);
    assert Enabled(states[n + 1], DoLeave(pid)) && Do(cfg, states[n + 1], DoLeave(pid)) == states[n];
  }

  /** In every such run: when everybody has left, computers too, the slots are the base slots again. */
  lemma AllGoneIsBase(cfg: Config, states: seq<Lobby>, steps: seq<Step>, n: nat)
    requires IsRun(cfg, states, steps) && n < |states|
    requires forall i | 0 <= i < |steps| :: Keeps(states[i], steps[i])
    requires states[n].players == {} && forall i | 0 <= i < |states[n].slots| :: !states[n].slots[i].computer
    ensures states[n].slots == states[n].base
  {
    RunKeepsEmpty(cfg, states, steps, n);
    RunKeepsSeats(cfg, states, steps, n);
    var l := states[n];
    forall i | 0 <= i < |l.slots|
      ensures l.slots[i] == l.base[i]
    {
      assert SlotOk(l.players, l.slots[i]);
    }
  }

  // ---- Opening, closing and kicking ---------------------------------------

  /** An empty slot and a computer's change at once, to what the base slot then is in all but an empty slot's fields. */
  lemma StatusTakes(l: Lobby, sid: nat, status: SlotStatus)
    requires SeatInv(l) && sid < |l.slots| && !status.SlotOccupied? && Sitting(l.slots[sid]) == {}
    ensures var r := SetStatus(l, sid, status);
      && r.slots[sid].status == r.base[sid].status == status && r.players == l.players
      && (forall i | 0 <= i < |l.slots| && i != sid :: r.slots[i] == l.slots[i] && r.base[i] == l.base[i])
      && (l.slots[sid].computer || l.slots[sid] == l.base[sid] ==> r.slots[sid] == r.base[sid])
  {
    assert SlotOk(l.players, l.slots[sid]);
  }

  /** A player is kicked, and the slot is opened or closed when that player leaves. */
  lemma KickThenLeave(l: Lobby, pid: nat, status: SlotStatus)
    requires SeatInv(l) && pid in l.players && !status.SlotOccupied?
    ensures Seated(l.slots, pid)
    ensures var sid := SidOf(l.slots, pid);
      var r := SetStatus(l, sid, status);
      && r.slots == l.slots
      && Leave(r, pid) == SetStatus(Leave(l, pid), sid, status)
      && Leave(r, pid).slots[sid] == l.base[sid].(status := status)
  {
    assert Seated(l.slots, pid);
    var sid := SidOf(l.slots, pid);
    assert SlotOk(l.players, l.slots[sid]);
    assert Vacant(l.base[sid]);
    var r := SetStatus(l, sid, status);
    var b := l.base[sid].(status := status);
    assert Leave(r, pid).slots == l.slots[sid := b];
    assert SetStatus(Leave(l, pid), sid, status).slots == l.slots[sid := b];
  }

  // ---- Exchanging ---------------------------------------------------------

  predicate SamePerson(s: SlotData, t: SlotData) {
    && s.playerID == t.playerID && s.downloadStatus == t.downloadStatus && s.status == t.status
    && s.computer == t.computer && s.computerType == t.computerType
  }

  /**
   * Who sits in a slot moves to the other. The team goes along if told to, colour and handicap unless settings are
   * fixed, and the race if both slots let players choose theirs.
   */
  lemma SwapExchanges(cfg: Config, slots: Slots, a: nat, b: nat, swapTeams: bool)
    requires a < |slots| && b < |slots|
    ensures var r := Swap(cfg, slots, a, b, swapTeams);
      && |r| == |slots| && (forall i | 0 <= i < |slots| && i != a && i != b :: r[i] == slots[i])
      && SamePerson(r[a], slots[b]) && SamePerson(r[b], slots[a])
      && r[a].team == slots[if swapTeams then b else a].team
      && r[b].team == slots[if swapTeams then a else b].team
      && r[a].color == slots[if cfg.fixedSettings then a else b].color
      && r[b].color == slots[if cfg.fixedSettings then b else a].color
      && r[a].handicap == slots[if cfg.fixedSettings then a else b].handicap
      && r[b].handicap == slots[if cfg.fixedSettings then b else a].handicap
      && var both := slots[a].race / 64 % 2 == 1 && slots[b].race / 64 % 2 == 1;
         r[a].race == slots[if both then b else a].race && r[b].race == slots[if both then a else b].race
  {
  }

  /** Exchanging twice changes nothing. */
  lemma SwapTwice(cfg: Config, slots: Slots, a: nat, b: nat, swapTeams: bool)
    requires a < |slots| && b < |slots|
    ensures Swap(cfg, Swap(cfg, slots, a, b, swapTeams), a, b, swapTeams) == slots
  {
    var r := Swap(cfg, slots, a, b, swapTeams);
    var q := Swap(cfg, r, a, b, swapTeams);
    assert |q| == |slots|;
    assert q[a] == slots[a] && q[b] == slots[b];
  }

  // ---- Teams, colours and computers ---------------------------------------

  /**
   * Exactly when an occupied slot gets the team: the teams are not fixed, the team is a player's or, with observers on,
   * theirs, and no observer becomes a player too many.
   */
  lemma TeamChangesIff(cfg: Config, l: Lobby, sid: nat, t: nat)
    requires LobbyTeams.TeamInv(cfg, l) && sid < |l.slots| && l.slots[sid].status.SlotOccupied? && l.slots[sid].team != t
    ensures var r, was := SetTeam(cfg, l, sid, t), l.slots[sid];
      && OnlyAt(l, r, sid) && r.players == l.players
      && (r.slots[sid] == was || r.slots[sid] == was.(team := t))
      && (r.slots[sid].team == t <==>
            && !cfg.customForces && (t < cfg.numPlayers || (t == cfg.obsTeam && cfg.obsTeam != 255))
            && !(was.team == cfg.obsTeam && t != cfg.obsTeam && |PlayerSlots(cfg, l.slots)| == cfg.numPlayers))
  {
    LobbyTeams.CountAfter(cfg, l.slots, sid, l.slots[sid].(team := t));
  }

  /** Exactly when a slot gets the colour: it is one of the set, below 32, and no player wears it. */
  lemma ColorChangesIff(cfg: Config, l: Lobby, sid: nat, c: nat)
    requires sid < |l.slots| && l.slots[sid].color != c
    ensures var r, was := SetColor(cfg, l, sid, c), l.slots[sid];
      && OnlyAt(l, r, sid) && r.players == l.players
      && (r.slots[sid] == was || r.slots[sid] == was.(color := c))
      && (r.slots[sid].color == c <==>
            c in cfg.colors && c < 32 && forall i | 0 <= i < |l.slots| && IsPlayer(cfg, l.slots[i]) :: l.slots[i].color != c)
  {
    WornIff(cfg, l.slots, c);
  }

  lemma WornIff(cfg: Config, slots: Slots, c: nat)
    ensures c in UsedColors(cfg, slots) <==> exists i | 0 <= i < |slots| :: IsPlayer(cfg, slots[i]) && slots[i].color == c
  {
    forall i | 0 <= i < |slots| && IsPlayer(cfg, slots[i])
      ensures slots[i].color in UsedColors(cfg, slots)
    {
      assert i in PlayerSlots(cfg, slots);
    }
  }

  /**
   * Exactly when a slot ends up with a computer of that kind: it had one, or it is empty, initSlot finds room, and its
   * base team is not that of the observers.
   */
  lemma ComputerSitsIff(cfg: Config, l: Lobby, sid: nat, ai: nat)
    requires SeatInv(l) && sid < |l.slots|
    ensures var r, was := SetComputer(cfg, l, sid, ai), l.slots[sid];
      && OnlyAt(l, r, sid) && r.players == l.players
      && (r.slots[sid].computer && r.slots[sid].computerType == ai <==>
            || was.computer
            || (&& !was.status.SlotOccupied? && InitSlot(cfg, l, sid).Some?
                && (cfg.obsTeam == 255 || l.base[sid].team != cfg.obsTeam)))
      && (r.slots[sid].computer ==> r.slots[sid].status.SlotOccupied? && r.slots[sid].playerID == 255)
      && (r.slots[sid].computer && !was.computer ==>
            && r.slots[sid].downloadStatus == 100
            && r.slots[sid].race == l.base[sid].race && r.slots[sid].handicap == l.base[sid].handicap)
  {
    assert SlotOk(l.players, l.slots[sid]);
    assert Vacant(l.base[sid]);
  }

  /** What initSlot finds no room for: teams are free, the players are complete, and observers are off. */
  lemma RoomIff(cfg: Config, l: Lobby, sid: nat)
    requires cfg.customForces || LobbyTeams.MeleeConfig(cfg)
    requires sid < |l.base|
    ensures InitSlot(cfg, l, sid).None? <==>
            !cfg.customForces && cfg.obsTeam == 255 && |PlayerSlots(cfg, l.slots)| >= cfg.numPlayers
  {
    if !cfg.customForces {
      LobbyTeams.InitSlotTeam(cfg, l, sid);
    }
  }
}
