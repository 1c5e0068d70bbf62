// The lobby object (network/lobby/lobby.go), its scans and its operations, proved against the value model.

module LobbyHost {
  import opened BitSets
  import opened Options
  import opened SlotTable
  import opened Lobbies
  import LobbyTeams

  datatype Outcome =
    | NoError
    | ErrLocked
    | ErrFull
    | ErrInvalidArgument
    | ErrSlotOccupied
    | ErrPlayersOccupied
    | ErrColorOccupied
    | Panicked

  /** What the scans have seen after n slots. */
  lemma SeenOne(cfg: Config, slots: Slots, n: nat)
    requires n < |slots|
    ensures PlayerSlots(cfg, slots[..n + 1]) ==
            PlayerSlots(cfg, slots[..n]) + if IsPlayer(cfg, slots[n]) then {n} else {}
    ensures UsedTeams(cfg, slots[..n + 1]) ==
            UsedTeams(cfg, slots[..n]) + if IsPlayer(cfg, slots[n]) then {slots[n].team} else {}
    ensures UsedColors(cfg, slots[..n + 1]) ==
            UsedColors(cfg, slots[..n]) + if IsPlayer(cfg, slots[n]) then {slots[n].color} else {}
  {
    assert forall i | 0 <= i < n :: slots[..n + 1][i] == slots[..n][i];
    var more := PlayerSlots(cfg, slots[..n + 1]);
    var seen := PlayerSlots(cfg, slots[..n]);
    assert more == seen + if IsPlayer(cfg, slots[n]) then {n} else {};
    forall i | i in seen
      ensures slots[i].team in UsedTeams(cfg, slots[..n + 1]) && slots[i].color in UsedColors(cfg, slots[..n + 1])
    {
      assert i in more;
    }
    assert IsPlayer(cfg, slots[n]) ==> n in more;
  }

  lemma SeenNone(cfg: Config)
    ensures UsedTeams(cfg, []) == {} == UsedColors(cfg, [])
  {
  }

  class Host {
    const cfg: Config
    const colorSet: BitSet32
    var slots: Slots
    var base: Slots
    var players: set<nat>
    var locked: bool

    /** The colour set holds colour c as member c + 1. */
    ghost predicate Valid()
      reads this
    {
      && |slots| == |base| <= 32
      && (forall pid | pid in players :: 1 <= pid <= 32)
      && (forall c: nat :: c in cfg.colors <==> c + 1 in Members(colorSet))
    }

    ghost function View(): Lobby
      reads this
    {
      Lobby(slots, base, players, locked)
    }

    /** NewLobby */
    constructor (cfg: Config, colorSet: BitSet32, base: Slots)
      requires |base| <= 32
      requires forall c: nat :: c in cfg.colors <==> c + 1 in Members(colorSet)
      ensures Valid() && this.cfg == cfg && View() == Lobby(base, base, {}, false)
    {
      this.cfg, this.colorSet := cfg, colorSet;
      slots, this.base, players, locked := base, base, {}, false;
    }

    /** findEmptySlot; -1 if there is none. */
    method FindEmptySlot() returns (sid: int)
      ensures sid == if FirstOpen(slots) < |slots| then FirstOpen(slots) else -1
    {
      for i := 0 to |slots|
        invariant i <= FirstOpen(slots)
      {
        if slots[i].status.SlotOpen? {
          return i;
        }
      }
      return -1;
    }

    /** findEmptyPID: the set of used ids, complemented, and its trailing zeros. */
    method FindEmptyPID() returns (pid: nat)
      requires Valid()
      ensures pid == FreePid(players)
    {
      var used := ZERO;
      var todo := players;
      while todo != {}
        invariant todo <= players
        invariant Members(used) == players - todo
        decreases |todo|
      {
        var p :| p in todo;
        used := Insert(used, p);
        todo := todo - {p};
      }
      var free := Complement(used);
      var n := TrailingZeros32(free);
      forall m: nat | 1 <= m <= n
        ensures m in players
      {
        assert m !in Members(free);
      }
      LeastOutIs(players, 1, 33, n + 1);
      pid := n + 1;
    }

    /** findEmptyTeam; team t is member t + 1. It panics on a player's team above 31. */
    method FindEmptyTeam() returns (t: nat, ok: bool)
      ensures ok <==> SmallTeams(cfg, slots)
      ensures ok ==> t == FreeTeam(cfg, slots)
    {
      hide UsedTeams, PlayerSlots;
      var teams := ZERO;
      t := 0;
      SeenNone(cfg);
      for i := 0 to |slots|
        invariant forall k | 0 <= k < i && IsPlayer(cfg, slots[k]) :: slots[k].team < 32
        invariant forall k: nat :: k + 1 in Members(teams) <==> k in UsedTeams(cfg, slots[..i])
      {
        SeenOne(cfg, slots, i);
        if IsPlayer(cfg, slots[i]) {
          if slots[i].team >= 32 {
            return 0, false;
          }
          teams := Insert(teams, slots[i].team + 1);
        }
      }
      assert slots[..|slots|] == slots;
      ok := true;
      t := LeastUnused(teams, UsedTeams(cfg, slots));
    }

    /** countPlayers */
    method CountPlayers() returns (c: nat)
      ensures c == |PlayerSlots(cfg, slots)|
    {
      c := 0;
      assert PlayerSlots(cfg, slots[..0]) == {};
      for i := 0 to |slots|
        invariant c == |PlayerSlots(cfg, slots[..i])|
      {
        SeenOne(cfg, slots, i);
        if IsPlayer(cfg, slots[i]) {
          c := c + 1;
        }
      }
      assert slots[..|slots|] == slots;
    }

    /** availableColors. It panics on a player's colour above 31. */
    method AvailableColors() returns (free: BitSet32, ok: bool)
      requires Valid()
      ensures ok <==> SmallColors(cfg, slots)
      ensures ok ==> forall c: nat :: c + 1 in Members(free) <==> c in cfg.colors && c !in UsedColors(cfg, slots)
    {
      hide UsedColors, PlayerSlots;
      free := colorSet;
      SeenNone(cfg);
      for i := 0 to |slots|
        invariant forall k | 0 <= k < i && IsPlayer(cfg, slots[k]) :: slots[k].color < 32
        invariant forall c: nat :: c + 1 in Members(free) <==> c in cfg.colors && c !in UsedColors(cfg, slots[..i])
      {
        SeenOne(cfg, slots, i);
        if IsPlayer(cfg, slots[i]) {
          if slots[i].color >= 32 {
            return free, false;
          }
          free := Clear(free, slots[i].color + 1);
        }
      }
      assert slots[..|slots|] == slots;
      return free, true;
    }

    /** findEmptyColor */
    method FindEmptyColor() returns (c: nat, ok: bool)
      requires Valid()
      ensures ok <==> SmallColors(cfg, slots)
      ensures ok ==> c == FreeColor(cfg, slots)
    {
      var free;
      free, ok := AvailableColors();
      if !ok {
        return 0, false;
      }
      c := TrailingZeros32(free);
      ghost var open := cfg.colors - UsedColors(cfg, slots);
      assert c < 32 ==> c in open;
      forall m: nat | m < c
        ensures m !in open
      {
        assert m + 1 in Members(free) ==> c < m + 1;
      }
      LeastInIs(open, 0, 32, c);
    }

    /** initSlot */
    method InitSlot(sid: nat) returns (err: Outcome)
      requires Valid() && sid < |slots|
      modifies this`slots
      ensures Valid()
      ensures err == if InitPanics(cfg, old(slots)) then Panicked
                     else if Lobbies.InitSlot(cfg, old(View()), sid).Some? then NoError else ErrFull
      ensures slots == if err.NoError?
                       then old(slots)[sid := Lobbies.InitSlot(cfg, old(View()), sid).value] else old(slots)
    {
      var b := base[sid];
      var sd := SlotData(COMPUTER_PID, 255, SlotOccupied, false, b.team, b.color, b.race, 0, b.handicap);
      if !cfg.fixedSettings {
        var c, ok := FindEmptyColor();
        if !ok {
          return Panicked;
        }
        sd := sd.(color := c);
      }
      if !cfg.customForces {
        var t := cfg.obsTeam;
        var n := CountPlayers();
        if n < cfg.numPlayers {
          var ok;
          t, ok := FindEmptyTeam();
          if !ok {
            return Panicked;
          }
        }
        if t < cfg.numPlayers {
          sd := sd.(team := t);
        } else if cfg.obsTeam == OBS_DISABLED {
          return ErrFull;
        } else {
          sd := sd.(team := cfg.obsTeam);
        }
      }
      slots := slots[sid := sd];
      return NoError;
    }

    /** join, with its sends succeeding. */
    method Join() returns (err: Outcome, pid: nat)
      requires Valid() && SeatInv(View())
      modifies this
      ensures Valid() && View() == if err.Panicked? then old(View()) else Lobbies.Join(cfg, old(View()))
      ensures err.Panicked? <==> !old(locked) && FirstOpen(old(slots)) < |old(slots)| && InitPanics(cfg, old(slots))
      ensures err.ErrLocked? <==> old(locked)
      ensures err.ErrFull? || err.ErrLocked? || err.Panicked? || err.NoError?
      ensures err.NoError? <==> players == old(players) + {pid} && pid !in old(players)
      ensures err.NoError? ==> pid == FreePid(old(players)) && slots[FirstOpen(old(slots))].playerID == pid
    {
      hide Lobbies.InitSlot, InitPanics, SeatInv, FreePid, FirstOpen;
      pid := 0;
      if locked {
        return ErrLocked, 0;
      }
      var sid := FindEmptySlot();
      if sid < 0 {
        return ErrFull, 0;
      }
      err := InitSlot(sid);
      if !err.NoError? {
        return err, 0;
      }
      FreePidFits(old(View()), sid);
      pid := FindEmptyPID();
      slots := slots[sid := slots[sid].(playerID := pid)];
      players := players + {pid};
    }

    /** swapSlots: exchange the slots, then exchange back what stays. */
    method SwapSlots(a: nat, b: nat, swapTeams: bool)
      requires Valid() && a < |slots| && b < |slots|
      modifies this`slots
      ensures Valid() && slots == Swap(cfg, old(slots), a, b, swapTeams)
    {
      var inA, inB := slots[b], slots[a];
      if !swapTeams {
        inA, inB := inA.(team := inB.team), inB.(team := inA.team);
      }
      if cfg.fixedSettings {
        inA, inB := inA.(color := inB.color), inB.(color := inA.color);
        inA, inB := inA.(handicap := inB.handicap), inB.(handicap := inA.handicap);
      }
      if !Selectable(inA.race) || !Selectable(inB.race) {
        inA, inB := inA.(race := inB.race), inB.(race := inA.race);
      }
      slots := slots[a := inA][b := inB];
    }

    /** changeSlotStatus; a kicked player leaves in a later step. */
    method ChangeSlotStatus(sid: nat, status: SlotStatus, kick: bool) returns (err: Outcome)
      requires Valid() && sid < |slots|
      modifies this`slots, this`base
      ensures Valid()
      ensures err.ErrInvalidArgument? <==> status.SlotOccupied?
      ensures View() == if status.SlotOccupied? then old(View()) else SetStatus(old(View()), sid, status)
      ensures err.ErrSlotOccupied? <==>
              !status.SlotOccupied? && !kick && old(slots)[sid].status.SlotOccupied?
              && old(slots)[sid].playerID in players
    {
      if status.SlotOccupied? {
        return ErrInvalidArgument;
      }
      base := base[sid := base[sid].(status := status)];
      if !slots[sid].status.SlotOccupied? {
        slots := slots[sid := slots[sid].(status := status)];
        return NoError;
      }
      if slots[sid].playerID in players {
        return if kick then NoError else ErrSlotOccupied;
      }
      slots := slots[sid := base[sid]];
      return NoError;
    }

    /** changeTeam: change, count, and change back if there are too many players. */
    method ChangeTeam(sid: nat, t: nat) returns (err: Outcome)
      requires Valid() && sid < |slots|
      modifies this`slots
      ensures Valid() && View() == SetTeam(cfg, old(View()), sid, t)
      ensures err.ErrInvalidArgument? <==>
              cfg.customForces || (t >= cfg.numPlayers && (cfg.obsTeam == OBS_DISABLED || t != cfg.obsTeam))
      ensures err.ErrInvalidArgument? || err.ErrPlayersOccupied? || err.NoError?
      ensures err.NoError? ==> slots[sid].team == t
      ensures !err.NoError? ==> slots == old(slots)
    {
      if cfg.customForces {
        return ErrInvalidArgument;
      }
      if t >= cfg.numPlayers && (cfg.obsTeam == OBS_DISABLED || t != cfg.obsTeam) {
        return ErrInvalidArgument;
      }
      var was := slots[sid].team;
      slots := slots[sid := slots[sid].(team := t)];
      var n := CountPlayers();
      if n > cfg.numPlayers {
        slots := slots[sid := slots[sid].(team := was)];
        assert slots == old(slots);
        return ErrPlayersOccupied;
      }
      return NoError;
    }

    /** changeColor */
    method ChangeColor(sid: nat, c: nat) returns (err: Outcome)
      requires Valid() && sid < |slots|
      modifies this`slots
      ensures Valid() && View() == if err.Panicked? then old(View()) else SetColor(cfg, old(View()), sid, c)
      ensures err.Panicked? <==> c < 32 && !SmallColors(cfg, old(slots))
      ensures err.ErrInvalidArgument? <==> c >= 32
      ensures err.ErrColorOccupied? <==>
              c < 32 && SmallColors(cfg, old(slots)) && (c !in cfg.colors || c in UsedColors(cfg, old(slots)))
      ensures err.ErrInvalidArgument? || err.ErrColorOccupied? || err.Panicked? || err.NoError?
      ensures err.NoError? ==> slots[sid].color == c
      ensures !err.NoError? ==> slots == old(slots)
    {
      if c >= 32 {
        return ErrInvalidArgument;
      }
      var free, ok := AvailableColors();
      if !ok {
        return Panicked;
      }
      assert Test(free, c + 1) <==> c + 1 in Members(free);
      if !Test(free, c + 1) {
        return ErrColorOccupied;
      }
      slots := slots[sid := slots[sid].(color := c)];
      return NoError;
    }

    /** changeComputer */
    method ChangeComputer(sid: nat, ai: nat) returns (err: Outcome)
      requires Valid() && sid < |slots|
      modifies this`slots
      ensures Valid() && View() == if err.Panicked? then old(View()) else SetComputer(cfg, old(View()), sid, ai)
      ensures err.Panicked? <==> !old(slots)[sid].status.SlotOccupied? && InitPanics(cfg, old(slots))
      ensures err.ErrSlotOccupied? <==> old(slots)[sid].status.SlotOccupied? && !old(slots)[sid].computer
      ensures err.ErrSlotOccupied? || err.ErrFull? || err.ErrPlayersOccupied? || err.Panicked? || err.NoError?
      ensures err.ErrPlayersOccupied? ==> base[sid].team == cfg.obsTeam
      ensures err.NoError? ==> slots[sid].computer && slots[sid].computerType == ai
    {
      if slots[sid].status.SlotOccupied? {
        if !slots[sid].computer {
          return ErrSlotOccupied;
        }
        slots := slots[sid := slots[sid].(computerType := ai)];
        return NoError;
      }
      err := InitSlot(sid);
      if !err.NoError? {
        return err;
      }
      if cfg.obsTeam != OBS_DISABLED && base[sid].team == cfg.obsTeam {
        slots := slots[sid := base[sid]];
        return ErrPlayersOccupied;
      }
      slots := slots[sid := slots[sid].(downloadStatus := 100, computer := true, computerType := ai)];
    }

    /** OpenAllSlots (from closed to open) and CloseAllSlots (from open to closed). */
    method ChangeAllSlots(from: SlotStatus, to: SlotStatus) returns (err: Outcome)
      requires Valid()
      modifies this`slots
      ensures Valid()
      ensures err == if locked then ErrLocked else NoError
      ensures slots == if locked then old(slots) else SetAll(old(slots), from, to)
    {
      if locked {
        return ErrLocked;
      }
      for i := 0 to |slots|
        invariant |slots| == old(|slots|)
        invariant forall k | 0 <= k < i ::
          slots[k] == if old(slots)[k].status == from then old(slots)[k].(status := to) else old(slots)[k]
        invariant forall k | i <= k < |slots| :: slots[k] == old(slots)[k]
      {
        if slots[i].status == from {
          slots := slots[i := slots[i].(status := to)];
        }
      }
      assert slots == SetAll(old(slots), from, to);
      return NoError;
    }

    /** ShuffleSlots: each draw exchanges two slots, and their teams go along unless teams are shuffled or custom. */
    method ShuffleSlots(shuffleTeams: bool, draws: seq<(nat, nat)>) returns (err: Outcome)
      requires Valid() && SeatInv(View())
      requires forall k | 0 <= k < |draws| :: draws[k].0 < |slots| && draws[k].1 < |slots|
      modifies this`slots
      ensures Valid() && SeatInv(View())
      ensures err == if locked then ErrLocked else NoError
      ensures slots == if locked then old(slots) else Shuffled(cfg, old(slots), draws, shuffleTeams)
      ensures multiset(Pids(slots)) == multiset(Pids(old(slots)))
      ensures !cfg.customForces && !shuffleTeams && AllOccupied(old(slots)) ==>
              |PlayerSlots(cfg, slots)| == |PlayerSlots(cfg, old(slots))|
    {
      hide SeatInv, Swap, PlayerSlots, Pids, AllOccupied;
      if locked {
        return ErrLocked;
      }
      for k := 0 to |draws|
        invariant Valid() && SeatInv(View()) && |slots| == old(|slots|)
        invariant slots == Shuffled(cfg, old(slots), draws[..k], shuffleTeams)
        invariant multiset(Pids(slots)) == multiset(Pids(old(slots)))
        invariant AllOccupied(old(slots)) ==> AllOccupied(slots)
        invariant !cfg.customForces && !shuffleTeams && AllOccupied(old(slots)) ==>
                  |PlayerSlots(cfg, slots)| == |PlayerSlots(cfg, old(slots))|
      {
        var (i, j) := draws[k];
        assert draws[..k + 1][..k] == draws[..k];
        var occupied := slots[i].status.SlotOccupied? && slots[j].status.SlotOccupied?;
        var swapTeams := !cfg.customForces && occupied && !shuffleTeams;
        SwapKeepsSeats(cfg, View(), i, j, swapTeams);
        SwapPids(cfg, slots, i, j, swapTeams);
        SwapOccupied(cfg, slots, i, j, swapTeams);
        if swapTeams {
          LobbyTeams.SwapCount(cfg, slots, i, j, true);
        }
        SwapSlots(i, j, swapTeams);
      }
      assert draws[..|draws|] == draws;
      return NoError;
    }

    /** onLeave */
    method OnLeave(pid: nat)
      requires Valid() && SeatInv(View()) && pid in players
      modifies this`slots, this`players
      ensures Seated(old(slots), pid)
      ensures Valid() && View() == Leave(old(View()), pid)
    {
      assert Seated(slots, pid);
      players := players - {pid};
      var sid := PidToSid(slots, pid);
      slots := slots[sid := base[sid]];
    }
  }

  /** The scan of a set that holds k as member k + 1. */
  method LeastUnused(used: BitSet32, ghost s: set<nat>) returns (t: nat)
    requires forall k: nat :: k + 1 in Members(used) <==> k in s
    ensures t == LeastOut(s, 0, 32)
  {
    hide LeastOut;
    var free := Complement(used);
    t := TrailingZeros32(free);
    forall m: nat | m < t
      ensures m in s
    {
      assert m + 1 !in Members(free);
    }
    assert t < 32 ==> t + 1 !in Members(used);
    LeastOutIs(s, 0, 32, t);
  }

  /** Who sits in each slot. */
  function Pids(slots: Slots): (r: seq<nat>)
    ensures |r| == |slots| && forall i | 0 <= i < |slots| :: r[i] == slots[i].playerID
  {
    seq(|slots|, i requires 0 <= i < |slots| => slots[i].playerID)
  }

  predicate AllOccupied(slots: Slots) {
    forall i | 0 <= i < |slots| :: slots[i].status.SlotOccupied?
  }

  lemma SwapOccupied(cfg: Config, slots: Slots, a: nat, b: nat, swapTeams: bool)
    requires a < |slots| && b < |slots|
    ensures |Swap(cfg, slots, a, b, swapTeams)| == |slots|
    ensures AllOccupied(slots) ==>
      AllOccupied(Swap(cfg, slots, a, b, swapTeams)) && slots[a].status.SlotOccupied? && slots[b].status.SlotOccupied?
  {
  }

  /** An exchange loses and doubles nobody. */
  lemma SwapPids(cfg: Config, slots: Slots, a: nat, b: nat, swapTeams: bool)
    requires a < |slots| && b < |slots|
    ensures multiset(Pids(Swap(cfg, slots, a, b, swapTeams))) == multiset(Pids(slots))
  {
    var p := Pids(slots);
    assert Pids(Swap(cfg, slots, a, b, swapTeams)) == p[a := p[b]][b := p[a]];
  }

  lemma {:induction false} LeastOutIs(s: set<nat>, lo: nat, hi: nat, n: nat)
    requires lo <= n <= hi && (n < hi ==> n !in s)
    requires forall m: nat | lo <= m < n :: m in s
    ensures LeastOut(s, lo, hi) == n
    decreases n - lo
  {
    if lo < n {
      LeastOutIs(s, lo + 1, hi, n);
    }
  }

  lemma {:induction false} LeastInIs(s: set<nat>, lo: nat, hi: nat, n: nat)
    requires lo <= n <= hi && (n < hi ==> n in s)
    requires forall m: nat | lo <= m < n :: m !in s
    ensures LeastIn(s, lo, hi) == n
    decreases n - lo
  {
    if lo < n {
      LeastInIs(s, lo + 1, hi, n);
    }
  }
}
