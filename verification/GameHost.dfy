// The game host and its players as objects: the ack ring of network/lobby/player.go and
// drainAcks, desync and their callers in network/lobby/game.go.

module GameHost {
  import opened BitSets
  import opened LockStep
  import opened SlotTable

  /** The acks held by a ring: len entries from idx on, wrapping at the end. */
  ghost function Ring(arr: seq<Checksum>, idx: nat, len: nat): seq<Checksum>
    requires |arr| == RING_SIZE && idx < RING_SIZE && len <= RING_SIZE
  {
    if idx + len <= RING_SIZE then arr[idx..idx + len] else arr[idx..] + arr[..idx + len - RING_SIZE]
  }

  lemma RingPush(arr: seq<Checksum>, idx: nat, len: nat, x: Checksum)
    requires |arr| == RING_SIZE && idx < RING_SIZE && len < RING_SIZE
    ensures Ring(arr[(idx + len) % RING_SIZE := x], idx, len + 1) == Ring(arr, idx, len) + [x]
  {
    var at := (idx + len) % RING_SIZE;
    if idx + len < RING_SIZE {
      assert at == idx + len;
      assert arr[at := x][idx..at + 1] == arr[idx..at] + [x];
    } else {
      assert at == idx + len - RING_SIZE;
      assert arr[at := x][idx..] == arr[idx..];
      assert arr[at := x][..at + 1] == arr[..at] + [x];
    }
  }

  lemma RingPop(arr: seq<Checksum>, idx: nat, len: nat)
    requires |arr| == RING_SIZE && idx < RING_SIZE && 0 < len <= RING_SIZE
    ensures Ring(arr, idx, len) != [] && Ring(arr, idx, len)[0] == arr[idx]
    ensures Ring(arr, if idx + 1 >= RING_SIZE then 0 else idx + 1, len - 1) == Ring(arr, idx, len)[1..]
  {
    if idx + len <= RING_SIZE {
      assert arr[idx..idx + len][1..] == arr[idx + 1..idx + len];
    } else if idx + 1 < RING_SIZE {
      assert (arr[idx..] + arr[..idx + len - RING_SIZE])[1..] == arr[idx + 1..] + arr[..idx + len - RING_SIZE];
    } else {
      assert arr[idx..] == [arr[idx]];
      assert arr[..len - 1] == arr[0..0 + (len - 1)];
    }
  }

  /** network/lobby/player.go: the ring of acks and the tick counter of one player. */
  class Player {
    const pid: Pid
    const ackarr: array<Checksum>
    var ackidx: nat
    var acklen: nat
    var tick: nat
    /** What the ring holds, with the acks dequeued so far as history. */
    ghost var seat: Seat

    ghost predicate Valid()
      reads this, ackarr
    {
      && ackarr.Length == RING_SIZE && ackidx < RING_SIZE && acklen <= RING_SIZE
      && seat.queue == Ring(ackarr[..], ackidx, acklen)
      && seat.tick == tick < UINT32
    }

    constructor (id: Pid)
      ensures Valid() && fresh(ackarr) && pid == id && seat == Seat([], [], 0)
    {
      pid := id;
      ackarr := new Checksum[RING_SIZE];
      ackidx, acklen, tick := 0, 0, 0;
      seat := Seat([], [], 0);
    }

    method DequeueAck() returns (checksum: Checksum, ok: bool, more: bool)
      requires Valid()
      modifies this`ackidx, this`acklen, this`seat
      ensures Valid()
      ensures ok == (old(seat).queue != [])
      ensures !ok ==> seat == old(seat) && !more
      ensures ok ==> checksum == old(seat).queue[0] && seat == Pop(old(seat)) && more == (seat.queue != [])
    {
      checksum, more := 0, false;
      ok := acklen > 0;
      if ok {
        RingPop(ackarr[..], ackidx, acklen);
        checksum := ackarr[ackidx];
        acklen := acklen - 1;
        ackidx := ackidx + 1;
        if ackidx >= ackarr.Length {
          ackidx := 0;
        }
        more := acklen > 0;
        seat := Pop(seat);
      }
    }

    /** onTimeSlotAck up to the Tick event; answers the queue length, or -1 when the ring is full. */
    method EnqueueAck(checksum: Checksum) returns (l: int)
      requires Valid()
      modifies this`acklen, this`tick, this`seat, ackarr
      ensures Valid()
      ensures l == if |old(seat).queue| < 2048 then |seat.queue| else -1
      ensures seat == if l < 0 then old(seat) else Enqueue(old(seat), checksum)
    {
      if acklen >= ackarr.Length {
        return -1;
      }
      RingPush(ackarr[..], ackidx, acklen, checksum);
      ackarr[(ackidx + acklen) % ackarr.Length] := checksum;
      acklen := acklen + 1;
      tick := (tick + 1) % UINT32;
      l := acklen;
      seat := Enqueue(seat, checksum);
    }
  }

  // ---- Tallying -----------------------------------------------------------

  datatype Plack = Plack(p: Player, a: Checksum)

  ghost function Votes(arr: seq<Plack>): map<Pid, Checksum> {
    if arr == [] then map[]
    else
      var last := arr[|arr| - 1];
      Votes(arr[..|arr| - 1])[last.p.pid := last.a]
  }

  /** The players that voted otherwise than v in the first k acks. */
  ghost function Outvoted(arr: seq<Plack>, k: nat, v: Checksum): set<Pid>
    requires k <= |arr|
  {
    if k == 0 then {}
    else if arr[k - 1].a == v then Outvoted(arr, k - 1, v)
    else Outvoted(arr, k - 1, v) + {arr[k - 1].p.pid}
  }

  ghost predicate DistinctPids(arr: seq<Plack>) {
    forall i, j | 0 <= i < j < |arr| :: arr[i].p.pid != arr[j].p.pid
  }

  lemma {:induction false} VotesOf(arr: seq<Plack>)
    requires DistinctPids(arr)
    ensures forall i | 0 <= i < |arr| :: arr[i].p.pid in Votes(arr) && Votes(arr)[arr[i].p.pid] == arr[i].a
    ensures forall pid | pid in Votes(arr) :: exists i | 0 <= i < |arr| :: arr[i].p.pid == pid
  {
    if arr != [] {
      var n := |arr| - 1;
      VotesOf(arr[..n]);
      forall pid | pid in Votes(arr)
        ensures exists i | 0 <= i < |arr| :: arr[i].p.pid == pid
      {
        if pid == arr[n].p.pid {
          assert arr[n].p.pid == pid;
        } else {
          var i :| 0 <= i < n && arr[..n][i].p.pid == pid;
          assert arr[i].p.pid == pid;
        }
      }
      forall i | 0 <= i < |arr|
        ensures arr[i].p.pid in Votes(arr) && Votes(arr)[arr[i].p.pid] == arr[i].a
      {
        if i < n {
          assert arr[..n][i] == arr[i];
        }
      }
    }
  }

  lemma PlayingAdd(votes: map<Pid, Checksum>, obs: set<Pid>, p: Pid, a: Checksum, w: Checksum)
    requires p !in votes
    ensures |Playing(votes[p := a], obs, w)| == |Playing(votes, obs, w)| + if w == a && p !in obs then 1 else 0
  {
    var playing := Playing(votes, obs, w);
    assert Playing(votes[p := a], obs, w) == if w == a && p !in obs then playing + {p} else playing;
  }

  lemma ObservingAdd(votes: map<Pid, Checksum>, obs: set<Pid>, p: Pid, a: Checksum, w: Checksum)
    requires p !in votes
    ensures |Observing(votes[p := a], obs, w)| == |Observing(votes, obs, w)| + if w == a && p in obs then 1 else 0
  {
    var observing := Observing(votes, obs, w);
    assert Observing(votes[p := a], obs, w) == if w == a && p in obs then observing + {p} else observing;
  }

  /** One more vote adds its weight to its checksum and to no other. */
  lemma WeightAdd(votes: map<Pid, Checksum>, obs: set<Pid>, p: Pid, a: Checksum, w: Checksum)
    requires p !in votes
    ensures Weight(votes[p := a], obs, w) ==
      Weight(votes, obs, w) + (if w != a then 0 else if p in obs then 1 else 0xFF)
  {
    PlayingAdd(votes, obs, p, a, w);
    ObservingAdd(votes, obs, p, a, w);
  }

  lemma WeightOfVoted(votes: map<Pid, Checksum>, obs: set<Pid>, w: Checksum)
    requires Weight(votes, obs, w) > 0
    ensures w in votes.Values
  {
    if Playing(votes, obs, w) != {} {
      var p :| p in Playing(votes, obs, w);
      assert votes[p] == w;
    } else {
      var p :| p in Observing(votes, obs, w);
      assert votes[p] == w;
    }
  }

  /** The acks of the players in `done` and of no others, once each. */
  ghost predicate Collected(arr: seq<Plack>, heads: map<Pid, Checksum>, done: set<Pid>) {
    && DistinctPids(arr)
    && (forall i | 0 <= i < |arr| :: arr[i].p.pid in done)
    && Votes(arr).Keys == done
    && (forall p | p in Votes(arr) :: p in heads && Votes(arr)[p] == heads[p])
  }

  lemma CollectedNext(arr: seq<Plack>, heads: map<Pid, Checksum>, done: set<Pid>, ack: Plack)
    requires Collected(arr, heads, done)
    requires ack.p.pid in heads && ack.p.pid !in done && ack.a == heads[ack.p.pid]
    ensures Collected(arr + [ack], heads, done + {ack.p.pid})
  {
    assert (arr + [ack])[..|arr|] == arr;
  }

  /** Every player but those in `todo` one ack further. */
  ghost function Popped(ps: Seats, todo: set<Pid>): Seats
    requires AllQueued(ps)
  {
    map p | p in ps :: if p in todo then ps[p] else Pop(ps[p])
  }

  lemma PoppedNone(ps: Seats)
    requires AllQueued(ps)
    ensures Popped(ps, ps.Keys) == ps
    ensures Stragglers(Popped(ps, {})) - ps.Keys == {}
    ensures Collected([], Heads(ps), ps.Keys - ps.Keys)
  {
  }

  lemma HeadsAt(ps: Seats, id: Pid)
    requires AllQueued(ps) && id in ps
    ensures id in Heads(ps) && Heads(ps)[id] == ps[id].queue[0]
  {
  }

  lemma PoppedNext(ps: Seats, todo: set<Pid>, id: Pid)
    requires AllQueued(ps) && id in todo && id in ps
    ensures Popped(ps, todo - {id}) == Popped(ps, todo)[id := Pop(ps[id])]
    ensures ps.Keys - (todo - {id}) == ps.Keys - todo + {id}
    ensures var idle := Stragglers(Popped(ps, {}));
      idle - (todo - {id}) == idle - todo + if Pop(ps[id]).queue == [] then {id} else {}
  {
  }

  lemma CollectedAll(arr: seq<Plack>, heads: map<Pid, Checksum>)
    requires Collected(arr, heads, heads.Keys)
    ensures DistinctPids(arr) && Votes(arr) == heads
    ensures forall i | 0 <= i < |arr| :: arr[i].p.pid in heads
    ensures arr == [] <==> heads == map[]
  {
    assert arr != [] ==> arr[|arr| - 1].p.pid in heads.Keys;
  }

  lemma KeysCount(ps: Seats, heads: map<Pid, Checksum>)
    requires ps.Keys == heads.Keys
    ensures |ps| == |heads|
  {
    assert |ps| == |ps.Keys| && |heads| == |heads.Keys|;
  }

  lemma RoundOfAgreed(arr: seq<Plack>, ps: Seats, obs: set<Pid>)
    requires AllQueued(ps) && arr != [] && Collected(arr, Heads(ps), ps.Keys)
    requires forall k | 0 <= k < |arr| :: arr[k].a == arr[0].a
    ensures Winner(Heads(ps), obs, arr[0].a)
    ensures Round(ps, arr[0].a) == Popped(ps, {})
  {
    CollectedAll(arr, Heads(ps));
    VotesOf(arr);
    assert Heads(ps)[arr[0].p.pid] == arr[0].a;
  }

  lemma {:induction false} OutvotedAre(arr: seq<Plack>, k: nat, v: Checksum, p: Pid)
    requires k <= |arr|
    ensures p in Outvoted(arr, k, v) <==> exists i | 0 <= i < k :: arr[i].p.pid == p && arr[i].a != v
  {
    if k > 0 {
      OutvotedAre(arr, k - 1, v, p);
    }
  }

  lemma RoundOfOutvoted(arr: seq<Plack>, ps: Seats, v: Checksum)
    requires AllQueued(ps) && Collected(arr, Heads(ps), ps.Keys)
    ensures Popped(ps, {}) - Outvoted(arr, |arr|, v) == Round(ps, v)
    ensures Stragglers(Popped(ps, {})) - Outvoted(arr, |arr|, v) == Stragglers(Round(ps, v))
  {
    hide Outvoted, Collected;
    OutvotedDiffer(arr, ps, v);
    assert Popped(ps, {}) - Outvoted(arr, |arr|, v) == Round(ps, v);
  }

  lemma OutvotedDiffer(arr: seq<Plack>, ps: Seats, v: Checksum)
    requires AllQueued(ps) && Collected(arr, Heads(ps), ps.Keys)
    ensures forall p: Pid | p in ps :: p in Outvoted(arr, |arr|, v) <==> ps[p].queue[0] != v
  {
    hide Outvoted, Collected, Votes;
    assert ps.Keys == Heads(ps).Keys;
    CollectedAll(arr, Heads(ps));
    VotesOf(arr);
    forall p: Pid | p in ps
      ensures p in Outvoted(arr, |arr|, v) <==> ps[p].queue[0] != v
    {
      OutvotedAre(arr, |arr|, v, p);
      assert Heads(ps)[p] == ps[p].queue[0];
    }
  }

  lemma OutvotedNone(arr: seq<Plack>, v: Checksum)
    ensures Outvoted(arr, 0, v) == {}
  {
  }

  lemma OutvotedNext(arr: seq<Plack>, k: nat, v: Checksum)
    requires k < |arr|
    ensures Outvoted(arr, k + 1, v) == Outvoted(arr, k, v) + if arr[k].a != v then {arr[k].p.pid} else {}
  {
  }

  lemma {:induction false} VotesCount(arr: seq<Plack>)
    requires DistinctPids(arr)
    ensures |Votes(arr)| == |arr|
  {
    if arr != [] {
      var n := |arr| - 1;
      VotesCount(arr[..n]);
      VotesOf(arr[..n]);
      assert forall i | 0 <= i < n :: arr[..n][i] == arr[i];
      assert arr[n].p.pid !in Votes(arr[..n]);
    }
  }

  // ---- Passes in a row ----------------------------------------------------

  /** `ps` is reached from `before` by passes that left no straggler. */
  ghost predicate Passed(before: Seats, obs: set<Pid>, vs: seq<Checksum>, ps: Seats)
    decreases |vs|
  {
    if vs == [] then
      ps == before
    else
      && AllQueued(before)
      && Winner(Heads(before), obs, vs[0])
      && Stragglers(Round(before, vs[0])) == {}
      && Passed(Round(before, vs[0]), obs, vs[1..], ps)
  }

  lemma {:induction false} PassedNext(before: Seats, obs: set<Pid>, vs: seq<Checksum>, ps: Seats, v: Checksum)
    requires Passed(before, obs, vs, ps) && AllQueued(ps)
    requires Winner(Heads(ps), obs, v) && Stragglers(Round(ps, v)) == {}
    ensures Passed(before, obs, vs + [v], Round(ps, v))
    decreases |vs|
  {
    hide Winner, Round, Heads, Stragglers;
    if vs != [] {
      PassedNext(Round(before, vs[0]), obs, vs[1..], ps, v);
      assert (vs + [v])[1..] == vs[1..] + [v];
    } else {
      assert [v][1..] == [];
    }
  }

  lemma {:induction false} PassedThen(before: Seats, obs: set<Pid>, vs: seq<Checksum>, ps: Seats,
                                      us: seq<Checksum>, ps': Seats, mask': set<Pid>)
    requires Passed(before, obs, vs, ps) && Drained(ps, obs, us, ps', mask')
    ensures Drained(before, obs, vs + us, ps', mask')
    decreases |vs|
  {
    hide Winner, Round, Heads, Stragglers;
    if vs != [] {
      PassedThen(Round(before, vs[0]), obs, vs[1..], ps, us, ps', mask');
      assert (vs + us)[1..] == vs[1..] + us;
    } else {
      assert vs + us == us;
    }
  }

  lemma NothingDrained(obs: set<Pid>)
    ensures Drained(map[], obs, [], map[], {})
  {
  }

  lemma NoStragglers(ps: Seats)
    requires Stragglers(ps) == {}
    ensures AllQueued(ps)
  {
    forall p | p in ps
      ensures ps[p].queue != []
    {
      assert p !in Stragglers(ps);
    }
  }

  function Tally(m: map<Checksum, nat>, w: Checksum): nat {
    if w in m then m[w] else 0
  }

  ghost predicate Tallied(m: map<Checksum, nat>, arr: seq<Plack>, obs: set<Pid>) {
    forall w :: Tally(m, w) == Weight(Votes(arr), obs, w)
  }

  lemma TallyNext(m: map<Checksum, nat>, arr: seq<Plack>, obs: set<Pid>, k: nat)
    requires k < |arr| && DistinctPids(arr) && Tallied(m, arr[..k], obs)
    ensures var inc := if arr[k].p.pid in obs then 1 else 0xFF;
      Tallied(m[arr[k].a := Tally(m, arr[k].a) + inc], arr[..k + 1], obs)
  {
    var votes := Votes(arr[..k]);
    VotesOf(arr[..k]);
    assert arr[..k + 1][..k] == arr[..k];
    assert Votes(arr[..k + 1]) == votes[arr[k].p.pid := arr[k].a];
    assert arr[k].p.pid !in votes;
    var m' := m[arr[k].a := Tally(m, arr[k].a) + if arr[k].p.pid in obs then 1 else 0xFF];
    forall w
      ensures Tally(m', w) == Weight(Votes(arr[..k + 1]), obs, w)
    {
      assert Tally(m, w) == Weight(votes, obs, w);
      WeightAdd(votes, obs, arr[k].p.pid, arr[k].a, w);
    }
  }

  /** The players that desync takes for observers. */
  ghost function Observers(slots: seq<SlotData>, obsTeam: nat): set<Pid> {
    set p: Pid | 1 <= p <= 32 && Seated(slots, p) && slots[SidOf(slots, p)].team == obsTeam
  }

  /** Somebody sits in a slot of a team that is not the observers'. */
  ghost predicate Plays(slots: seq<SlotData>, obsTeam: nat, pid: nat) {
    exists sid: nat :: IsFirst(slots, pid, sid) && slots[sid].team != obsTeam
  }

  /** The acks of checksum w that came from such slots, and those that did not. */
  ghost function FromPlayers(arr: seq<Plack>, slots: seq<SlotData>, obsTeam: nat, w: Checksum): set<nat> {
    set i: nat | i < |arr| && arr[i].a == w && Plays(slots, obsTeam, arr[i].p.pid)
  }

  ghost function FromObservers(arr: seq<Plack>, slots: seq<SlotData>, obsTeam: nat, w: Checksum): set<nat> {
    set i: nat | i < |arr| && arr[i].a == w && !Plays(slots, obsTeam, arr[i].p.pid)
  }

  /** No checksum was acked by more players, nor by as many players and more observers. */
  ghost predicate MostPlayers(arr: seq<Plack>, slots: seq<SlotData>, obsTeam: nat, v: Checksum) {
    forall j | 0 <= j < |arr| ::
      var (pw, pv) := (|FromPlayers(arr, slots, obsTeam, arr[j].a)|, |FromPlayers(arr, slots, obsTeam, v)|);
      || pw < pv
      || (pw == pv && |FromObservers(arr, slots, obsTeam, arr[j].a)| <= |FromObservers(arr, slots, obsTeam, v)|)
  }

  lemma {:induction false} ObservesIff(slots: seq<SlotData>, obsTeam: nat, p: Pid)
    requires Seated(slots, p)
    ensures p in Observers(slots, obsTeam) <==> !Plays(slots, obsTeam, p)
  {
    var sid := SidOf(slots, p);
    forall k: nat | IsFirst(slots, p, k)
      ensures k == sid
    {
    }
  }

  /** Votes by player id and acks by position count the same. */
  lemma {:induction false} CountsAre(arr: seq<Plack>, slots: seq<SlotData>, obsTeam: nat, w: Checksum)
    requires DistinctPids(arr) && forall i | 0 <= i < |arr| :: Seated(slots, arr[i].p.pid)
    ensures var obs := Observers(slots, obsTeam);
      && |Playing(Votes(arr), obs, w)| == |FromPlayers(arr, slots, obsTeam, w)|
      && |Observing(Votes(arr), obs, w)| == |FromObservers(arr, slots, obsTeam, w)|
  {
    hide Observers, Plays;
    if arr == [] {
      assert Playing(map[], Observers(slots, obsTeam), w) == {};
      assert FromPlayers(arr, slots, obsTeam, w) == {} == FromObservers(arr, slots, obsTeam, w);
    } else {
      var n := |arr| - 1;
      var front, last := arr[..n], arr[n];
      CountsAre(front, slots, obsTeam, w);
      VotesOf(front);
      assert last.p.pid !in Votes(front);
      PlayingAdd(Votes(front), Observers(slots, obsTeam), last.p.pid, last.a, w);
      ObservingAdd(Votes(front), Observers(slots, obsTeam), last.p.pid, last.a, w);
      ObservesIff(slots, obsTeam, last.p.pid);
      FromNext(arr, slots, obsTeam, w);
    }
  }

  lemma {:induction false} FromNext(arr: seq<Plack>, slots: seq<SlotData>, obsTeam: nat, w: Checksum)
    requires arr != []
    ensures var n := |arr| - 1;
      var plays := Plays(slots, obsTeam, arr[n].p.pid);
      && |FromPlayers(arr, slots, obsTeam, w)| ==
         |FromPlayers(arr[..n], slots, obsTeam, w)| + (if arr[n].a == w && plays then 1 else 0)
      && |FromObservers(arr, slots, obsTeam, w)| ==
         |FromObservers(arr[..n], slots, obsTeam, w)| + (if arr[n].a == w && !plays then 1 else 0)
  {
    hide Plays;
    var n := |arr| - 1;
    var ps, os := FromPlayers(arr[..n], slots, obsTeam, w), FromObservers(arr[..n], slots, obsTeam, w);
    var plays := Plays(slots, obsTeam, arr[n].p.pid);
    assert FromPlayers(arr, slots, obsTeam, w) == if arr[n].a == w && plays then ps + {n} else ps;
    assert FromObservers(arr, slots, obsTeam, w) == if arr[n].a == w && !plays then os + {n} else os;
  }

  /** A winner of the tally is acked by the most players who sit in playing slots. */
  lemma {:induction false} WinnerHasPlayers(arr: seq<Plack>, slots: seq<SlotData>, obsTeam: nat, v: Checksum)
    requires DistinctPids(arr) && forall i | 0 <= i < |arr| :: Seated(slots, arr[i].p.pid)
    requires Winner(Votes(arr), Observers(slots, obsTeam), v)
    ensures MostPlayers(arr, slots, obsTeam, v)
  {
    hide Observers, Votes, FromPlayers, FromObservers, Playing, Observing, Winner;
    var obs := Observers(slots, obsTeam);
    WinnerIsLexicographic(Votes(arr), obs, v);
    VotesOf(arr);
    CountsAre(arr, slots, obsTeam, v);
    forall j | 0 <= j < |arr|
      ensures Precedes(Votes(arr), obs, arr[j].a, v)
      ensures |Playing(Votes(arr), obs, arr[j].a)| == |FromPlayers(arr, slots, obsTeam, arr[j].a)|
      ensures |Observing(Votes(arr), obs, arr[j].a)| == |FromObservers(arr, slots, obsTeam, arr[j].a)|
    {
      CountsAre(arr, slots, obsTeam, arr[j].a);
      assert Votes(arr)[arr[j].p.pid] in Votes(arr).Values;
    }
  }

  /** So players are never outvoted by observers, however many. */
  lemma {:induction false} PlayersOutvote(arr: seq<Plack>, slots: seq<SlotData>, obsTeam: nat, v: Checksum, i: nat)
    requires MostPlayers(arr, slots, obsTeam, v) && i < |arr| && Plays(slots, obsTeam, arr[i].p.pid)
    ensures exists k | 0 <= k < |arr| :: arr[k].a == v && Plays(slots, obsTeam, arr[k].p.pid)
  {
    hide Plays;
    var ps := FromPlayers(arr, slots, obsTeam, v);
    assert i in FromPlayers(arr, slots, obsTeam, arr[i].a);
    assert ps != {};
    var k :| k in ps;
  }

  /** No two players share a ring. */
  ghost predicate OwnRings(players: map<Pid, Player>) {
    forall p, q | p in players && q in players && p != q :: players[p].ackarr != players[q].ackarr
  }

  /** The same players, or some of them. */
  ghost predicate Within(players: map<Pid, Player>, others: map<Pid, Player>)
    ensures Within(players, others) && OwnRings(others) ==> OwnRings(players)
  {
    forall p | p in players :: p in others && players[p] == others[p]
  }

  /** The seats are those of the players. */
  ghost predicate Linked(players: map<Pid, Player>, seats: Seats, repr: set<object>)
    reads repr
  {
    && seats.Keys == players.Keys
    && forall p | p in players ::
         && players[p] in repr && players[p].ackarr in repr
         && players[p].pid == p && players[p].Valid() && players[p].seat == seats[p]
  }

  lemma LinkedMinus(players: map<Pid, Player>, seats: Seats, repr: set<object>, gone: set<Pid>)
    requires Linked(players, seats, repr)
    ensures Linked(players - gone, seats - gone, repr)
  {
  }

  lemma LinkedPlus(players: map<Pid, Player>, seats: Seats, repr: set<object>, p: Player)
    requires Linked(players, seats, repr) && p.Valid() && p.pid !in players
    ensures Linked(players[p.pid := p], seats[p.pid := p.seat], repr + {p, p.ackarr})
  {
  }

  lemma LinkedMember(players: map<Pid, Player>, seats: Seats, repr: set<object>, id: Pid)
    requires Linked(players, seats, repr) && id in players
    ensures players[id] in repr && players[id].ackarr in repr && players[id].pid == id
  {
  }

  /** DequeueAck on one of the players. */
  method Dequeue(players: map<Pid, Player>, ghost seats: Seats, ghost repr: set<object>, id: Pid)
    returns (ack: Checksum, ok: bool, more: bool)
    requires Linked(players, seats, repr) && id in players
    modifies players[id]
    ensures ok <==> seats[id].queue != []
    ensures Linked(players, if ok then seats[id := Pop(seats[id])] else seats, repr)
    ensures ok ==> ack == seats[id].queue[0] && more == (Pop(seats[id]).queue != [])
  {
    hide Pop, Ring;
    assert forall p | p in players && p != id :: players[p] != players[id];
    ack, ok, more := players[id].DequeueAck();
  }

  /** EnqueueAck on one of the players. */
  method EnqueueOn(players: map<Pid, Player>, ghost seats: Seats, ghost repr: set<object>, id: Pid, sum: Checksum)
    returns (l: int, tick: nat)
    requires Linked(players, seats, repr) && id in players && id in seats
    requires forall p | p in players && p != id :: players[p].ackarr != players[id].ackarr
    modifies players[id], players[id].ackarr
    ensures l == if |seats[id].queue| < RING_SIZE then |seats[id].queue| + 1 else -1
    ensures Linked(players, if l < 0 then seats else seats[id := Enqueue(seats[id], sum)], repr)
    ensures l >= 0 ==> tick == Enqueue(seats[id], sum).tick
  {
    l := players[id].EnqueueAck(sum);
    tick := players[id].tick;
  }

  /** EnqueueAck on a player the host has already deleted. */
  method EnqueueOff(players: map<Pid, Player>, ghost seats: Seats, ghost repr: set<object>, p: Player, sum: Checksum)
    returns (l: int, tick: nat)
    requires Linked(players, seats, repr) && p.Valid() && p.pid !in players
    requires forall q | q in players :: players[q].ackarr != p.ackarr
    modifies p, p.ackarr
    ensures Linked(players, seats, repr) && p.Valid()
    ensures -1 <= l <= RING_SIZE
  {
    l := p.EnqueueAck(sum);
    tick := p.tick;
  }

  /** network/lobby/game.go: the part of a Game that the ack protocol uses. */
  class Game {
    var players: map<Pid, Player>
    var ackmask: BitSet32
    var ackarr: seq<Plack>
    var slots: seq<SlotData>
    var tick: nat
    var started: bool
    /** The seats of the players, as one value. */
    ghost var seats: Seats
    /** Players removed by onLeave whose PlayerLeft event has not been handled. */
    ghost var leaving: multiset<Pid>
    const obsTeam: nat
    const turnRate: int

    /** The players, past and present, with their rings. */
    ghost var Repr: set<object>

    ghost predicate Valid()
      reads this, Repr
    {
      this !in Repr && Linked(players, seats, Repr)
    }

    /** Every player has a slot; the lobby keeps this. */
    ghost predicate Placed()
      reads this
    {
      forall p | p in players :: Seated(slots, p)
    }

    ghost function View(): Host
      reads this
    {
      Host(seats, Members(ackmask), leaving, started, tick)
    }

    ghost function Obs(): set<Pid>
      reads this
    {
      Observers(slots, obsTeam)
    }

    constructor (slots: seq<SlotData>, obsTeam: nat, turnRate: int)
      ensures Valid() && Placed() && OwnRings(players) && View() == INITIAL
      ensures this.slots == slots && this.obsTeam == obsTeam && this.turnRate == turnRate && players == map[] && Repr == {}
    {
      players, ackmask, ackarr, tick, started := map[], ZERO, [], 0, false;
      this.slots, this.obsTeam, this.turnRate := slots, obsTeam, turnRate;
      seats, leaving, Repr := map[], multiset{}, {};
      new;
      EmptyIsZero(ackmask);
    }

    // ---- desync -----------------------------------------------------------

    method Desync() returns (v: Checksum)
      requires Valid() && ackarr != [] && DistinctPids(ackarr)
      requires forall i | 0 <= i < |ackarr| :: Seated(slots, ackarr[i].p.pid)
      modifies this`players, this`ackmask, this`seats
      ensures Valid() && players == old(players) - Outvoted(ackarr, |ackarr|, v)
      ensures Winner(Votes(ackarr), Obs(), v) && MostPlayers(ackarr, slots, obsTeam, v)
      ensures seats == old(seats) - Outvoted(ackarr, |ackarr|, v)
      ensures Members(ackmask) == old(Members(ackmask)) - Outvoted(ackarr, |ackarr|, v)
    {
      hide Linked, Winner, Votes, Outvoted, MostPlayers;
      v := TallyVotes();
      assert Outvoted(ackarr, 0, v) == {} by {
        OutvotedNone(ackarr, v);
      }
      for k := 0 to |ackarr|
        invariant players == old(players) - Outvoted(ackarr, k, v) && seats == old(seats)
        invariant Members(ackmask) == old(Members(ackmask)) - Outvoted(ackarr, k, v)
      {
        var ack := ackarr[k];
        OutvotedNext(ackarr, k, v);
        if ack.a != v {
          players := players - {ack.p.pid};
          ackmask := Clear(ackmask, ack.p.pid);
        }
      }
      LinkedMinus(old(players), old(seats), Repr, Outvoted(ackarr, |ackarr|, v));
      seats := seats - Outvoted(ackarr, |ackarr|, v);
    }

    /** The first loop of desync. */
    method TallyVotes() returns (max: Checksum)
      requires ackarr != [] && DistinctPids(ackarr)
      requires forall i | 0 <= i < |ackarr| :: Seated(slots, ackarr[i].p.pid)
      ensures Winner(Votes(ackarr), Obs(), max) && MostPlayers(ackarr, slots, obsTeam, max)
    {
      max := 0;
      var m: map<Checksum, nat> := map[];
      for k := 0 to |ackarr|
        invariant Tallied(m, ackarr[..k], Obs())
        invariant forall w :: Tally(m, w) <= Tally(m, max)
        invariant k > 0 ==> Tally(m, max) > 0
      {
        var ack := ackarr[k];
        ghost var m0, max0 := m, max;
        TallyNext(m, ackarr, Obs(), k);
        var sid := PidToSid(slots, ack.p.pid);
        if slots[sid].team != obsTeam {
          m := m[ack.a := Tally(m, ack.a) + 0xFF];
        } else {
          m := m[ack.a := Tally(m, ack.a) + 1];
        }
        if Tally(m, ack.a) > Tally(m, max) {
          max := ack.a;
        }
        forall w
          ensures Tally(m, w) <= Tally(m, max)
        {
          assert Tally(m0, w) <= Tally(m0, max0);
        }
      }
      assert ackarr[..|ackarr|] == ackarr;
      WeightOfVoted(Votes(ackarr), Obs(), max);
      WinnerHasPlayers(ackarr, slots, obsTeam, max);
    }

    // ---- drainAcks --------------------------------------------------------

    /** The dequeue loop has passed every player but those in `todo`. */
    ghost predicate Collecting(before: Seats, todo: set<Pid>)
      reads this, Repr
    {
      && Valid() && AllQueued(before) && todo <= before.Keys == players.Keys
      && seats == Popped(before, todo)
      && Members(ackmask) == Stragglers(Popped(before, {})) - todo
      && Collected(ackarr, Heads(before), before.Keys - todo)
    }

    /** What the loop has made of players who may have nothing queued. */
    ghost predicate Underway(before: Seats, todo: set<Pid>)
      reads this, Repr
    {
      && Valid() && todo <= before.Keys == players.Keys
      && (forall p | p in todo :: p in seats && seats[p] == before[p])
      && (forall p | p in before && p !in todo :: before[p].queue != [])
      && (AllQueued(before) ==> Collecting(before, todo))
    }

    /** One turn of the dequeue loop; an empty ring is the "Could not dequeue ack" panic. */
    method CollectAck(id: Pid) returns (ok: bool)
      requires Valid() && id in players && id in seats
      modifies this`ackarr, this`ackmask, this`seats, players[id]
      ensures Valid() && (ok <==> old(seats)[id].queue != [])
      ensures ok ==> seats == old(seats)[id := Pop(old(seats)[id])]
      ensures ok ==> ackarr == old(ackarr) + [Plack(players[id], old(seats)[id].queue[0])]
      ensures ok ==> Members(ackmask) == old(Members(ackmask)) + if seats[id].queue == [] then {id} else {}
    {
      hide Linked;
      var ack, more;
      ack, ok, more := Dequeue(players, seats, Repr, id);
      if !ok {
        return;
      }
      if !more {
        ackmask := Insert(ackmask, id);
      }
      ackarr := ackarr + [Plack(players[id], ack)];
      seats := seats[id := Pop(seats[id])];
    }

    method CollectNext(id: Pid, ghost before: Seats, ghost todo: set<Pid>) returns (ok: bool)
      requires Underway(before, todo) && id in todo
      modifies this`ackarr, this`ackmask, this`seats, Repr
      ensures Valid() && (ok <==> before[id].queue != [])
      ensures ok ==> Underway(before, todo - {id})
    {
      hide Linked, Collected, Popped, Stragglers, Heads;
      LinkedMember(players, seats, Repr, id);
      if AllQueued(before) {
        PoppedNext(before, todo, id);
        HeadsAt(before, id);
        CollectedNext(ackarr, Heads(before), before.Keys - todo, Plack(players[id], before[id].queue[0]));
      }
      ok := CollectAck(id);
    }

    /** The dequeue loop of drainAcks; the players come in any order. It panics exactly if one has nothing queued. */
    method CollectAcks() returns (ok: bool)
      requires Valid() && ackmask == ZERO
      modifies this`ackarr, this`ackmask, this`seats, Repr
      ensures Valid() && (ok <==> AllQueued(old(seats)))
      ensures ok ==> Collecting(old(seats), {})
    {
      ghost var before := seats;
      ackarr := [];
      var todo := players.Keys;
      EmptyIsZero(ackmask);
      if AllQueued(seats) {
        PoppedNone(seats);
      }
      while todo != {}
        invariant Underway(before, todo)
      {
        var id :| id in todo;
        ok := CollectNext(id, before, todo);
        if !ok {
          return;
        }
        todo := todo - {id};
      }
      return true;
    }

    /** The comparison loop of drainAcks. */
    method AcksAgree() returns (same: bool)
      requires ackarr != []
      ensures same <==> forall k | 0 <= k < |ackarr| :: ackarr[k].a == ackarr[0].a
    {
      for i := 1 to |ackarr|
        invariant forall k | 0 <= k < i :: ackarr[k].a == ackarr[0].a
      {
        if ackarr[0].a != ackarr[i].a {
          return false;
        }
      }
      return true;
    }

    lemma CollectedWhole(before: Seats)
      requires Collecting(before, {})
      ensures Valid() && AllQueued(before) && before.Keys == Heads(before).Keys == players.Keys
      ensures Collected(ackarr, Heads(before), before.Keys)
      ensures seats == Popped(before, {}) && Members(ackmask) == Stragglers(Popped(before, {}))
    {
      hide Linked, Collected, Popped;
      assert before.Keys - {} == before.Keys;
    }

    /** The end of a pass: players that do not agree with the winning checksum are expelled. */
    method Settle(ghost before: Seats) returns (ghost v: Checksum)
      requires Collecting(before, {}) && Placed() && before != map[]
      modifies this`ackmask, this`players, this`seats
      ensures Valid() && Within(players, old(players))
      ensures Winner(Heads(before), Obs(), v)
      ensures seats == Round(before, v) && Members(ackmask) == Stragglers(seats)
    {
      hide Linked, Collected, Winner, Round, Popped, Votes, Outvoted, Stragglers, Collecting;
      CollectedWhole(before);
      CollectedAll(ackarr, Heads(before));
      var same := AcksAgree();
      if same {
        v := ackarr[0].a;
        RoundOfAgreed(ackarr, before, Obs());
      } else {
        var w := Desync();
        v := w;
        RoundOfOutvoted(ackarr, before, w);
      }
    }

    /** The loop has collected one ack of each player. */
    lemma CollectedEach(before: Seats)
      requires Collecting(before, {})
      ensures Valid() && |ackarr| == |before|
      ensures before == map[] ==> seats == map[] && ackmask == ZERO
    {
      hide Linked, Collecting;
      CollectedWhole(before);
      CollectedAll(ackarr, Heads(before));
      VotesCount(ackarr);
      KeysCount(before, Heads(before));
      if before == map[] {
        assert Members(ackmask) == {};
        EmptyIsZero(ackmask);
      }
    }

    /** One pass of the loop of drainAcks; l is the number of acks it has collected, unless it panics. */
    method DrainPass() returns (ok: bool, l: nat, ghost v: Checksum)
      requires Valid() && Placed() && ackmask == ZERO
      modifies this`ackarr, this`ackmask, this`players, this`seats, Repr
      ensures Valid() && Within(players, old(players)) && (ok <==> AllQueued(old(seats)))
      ensures ok ==> l == |old(seats)|
      ensures ok && l == 0 ==> seats == map[] && ackmask == ZERO
      ensures ok && l > 0 ==> Winner(Heads(old(seats)), Obs(), v)
      ensures ok && l > 0 ==> seats == Round(old(seats), v) && Members(ackmask) == Stragglers(seats)
    {
      hide Linked, Collecting, Winner, Round, Stragglers;
      ghost var before := seats;
      l, v := 0, 0;
      ok := CollectAcks();
      if !ok {
        return;
      }
      CollectedEach(before);
      l := |ackarr|;
      if l == 0 {
        return;
      }
      v := Settle(before);
    }

    /** A finished pass, appended to those before it. */
    ghost method CountPass(before: Seats, vs: seq<Checksum>, last: Seats, v: Checksum)
      requires AllQueued(last) && Passed(before, Obs(), vs, last)
      requires Winner(Heads(last), Obs(), v) && seats == Round(last, v) && Members(ackmask) == Stragglers(seats)
      ensures DrainState(before, vs + [v])
    {
      hide Winner, Round;
      EmptyIsZero(ackmask);
      if ackmask == ZERO {
        NoStragglers(seats);
        PassedNext(before, Obs(), vs, last, v);
      } else {
        assert Drained(last, Obs(), [v], seats, Members(ackmask));
        PassedThen(before, Obs(), vs, last, [v], seats, Members(ackmask));
      }
    }

    /** Where the loop of drainAcks stands after the passes vs. */
    ghost predicate DrainState(before: Seats, vs: seq<Checksum>)
      reads this
    {
      if ackmask == ZERO then AllQueued(seats) && Passed(before, Obs(), vs, seats)
      else Drained(before, Obs(), vs, seats, Members(ackmask))
    }

    /** drainAcks. It panics exactly where the value model says so. */
    method DrainAcks(pid: Pid) returns (panicked: bool, ghost vs: seq<Checksum>)
      requires Valid() && Placed()
      modifies this`ackarr, this`ackmask, this`players, this`seats, Repr
      ensures Valid() && Placed() && Within(players, old(players))
      ensures panicked <==> DrainPanics(old(View()), pid)
      ensures !panicked ==> LockStep.DrainAcks(old(View()), pid, Obs(), vs, View())
    {
      hide Linked, Drained;
      panicked, vs := false, [];
      if !Test(ackmask, pid) {
        return;
      }
      ackmask := Clear(ackmask, pid);
      EmptyIsZero(ackmask);
      if ackmask == ZERO {
        panicked, vs := DrainLoop();
      }
    }

    method DrainLoop() returns (panicked: bool, ghost vs: seq<Checksum>)
      requires Valid() && Placed() && ackmask == ZERO
      modifies this`ackarr, this`ackmask, this`players, this`seats, Repr
      ensures Valid() && Placed() && Within(players, old(players))
      ensures panicked <==> !AllQueued(old(seats))
      ensures !panicked ==> Drained(old(seats), Obs(), vs, seats, Members(ackmask))
    {
      hide Linked, Drained;
      ghost var before := seats;
      panicked, vs := false, [];
      while ackmask == ZERO
        invariant Valid() && Placed() && Within(players, old(players))
        invariant if AllQueued(before) then DrainState(before, vs) else seats == before && ackmask == ZERO
        decreases Queued(seats)
      {
        ghost var last := seats;
        var ok, l, v := DrainPass();
        if !ok {
          return true, vs;
        }
        if l == 0 {
          EmptyIsZero(ackmask);
          NothingDrained(Obs());
          PassedThen(before, Obs(), vs, last, [], seats, {});
          assert vs + [] == vs;
          return;
        }
        CountPass(before, vs, last, v);
        vs := vs + [v];
        RoundShrinks(last, v);
      }
    }

    // ---- The event handlers -----------------------------------------------

    /** The loop of onGameTick that drops the stragglers. */
    method DropStragglers()
      requires Valid() && Placed()
      modifies this`ackmask, this`players, this`seats
      ensures Valid() && Placed() && Within(players, old(players))
      ensures View() == LockStep.DropStragglers(old(View()))
    {
      hide Linked;
      ghost var lagging: set<Pid> := Members(ackmask);
      for pid := 1 to 33
        invariant players == old(players) - set p | p in lagging && p < pid
        invariant ackmask == old(ackmask) && seats == old(seats)
      {
        if Test(ackmask, pid) {
          players := players - {pid};
        }
      }
      assert lagging == set p | p in lagging && p < 33;
      assert players == old(players) - lagging;
      LinkedMinus(old(players), old(seats), Repr, lagging);
      seats := seats - lagging;
      ackmask := ZERO;
      EmptyIsZero(ackmask);
    }

    /** onGameTick for a player in the game, whose ack has just been queued. */
    method GameTick(pid: Pid, queue: nat, t: nat, ghost h: Host, ghost sum: Checksum) returns (ghost vs: seq<Checksum>)
      requires Valid() && Placed()
      requires Inv(h) && pid in h.players && |h.players[pid].queue| < RING_SIZE && View() == Enqueued(h, pid, sum)
      requires queue == |h.players[pid].queue| + 1 && t == Enqueue(h.players[pid], sum).tick
      modifies this`ackarr, this`ackmask, this`players, this`seats, Repr
      ensures Valid() && Placed() && Inv(View()) && Within(players, old(players))
      ensures Next(h, Step.Ack(pid, sum, Obs(), vs), turnRate, View())
    {
      hide Linked, Inv;
      vs := [];
      ghost var s := Step.Ack(pid, sum, Obs(), []);
      if t > tick {
        InvStep(h, s, turnRate, View());
        return;
      }
      if TooFarAhead(queue, turnRate) {
        DropStragglers();
      }
      assert View() == BeforeDrain(h, s, turnRate);
      StepNeverPanics(h, s, turnRate);
      var panicked;
      panicked, vs := DrainAcks(pid);
      InvStep(h, Step.Ack(pid, sum, Obs(), vs), turnRate, View());
    }

    /** onTimeSlotAck for a player in the game, with the Tick event it fires. */
    method Ack(p: Player, sum: Checksum) returns (ghost vs: seq<Checksum>)
      requires Valid() && Placed() && OwnRings(players) && Inv(View())
      requires p.pid in players && players[p.pid] == p && p.pid in seats
      modifies this`ackarr, this`ackmask, this`players, this`seats, Repr
      ensures Valid() && Placed() && Inv(View()) && Within(players, old(players))
      ensures Next(old(View()), Step.Ack(p.pid, sum, Obs(), vs), turnRate, View())
    {
      hide Linked, Inv;
      ghost var h := View();
      vs := [];
      LinkedMember(players, seats, Repr, p.pid);
      var l, t := EnqueueOn(players, seats, Repr, p.pid, sum);
      if l >= 0 {
        seats := seats[p.pid := Enqueue(seats[p.pid], sum)];
        vs := GameTick(p.pid, l, t, h, sum);
      }
    }

    /** onTimeSlotAck for a player that desync or a drop has deleted while its connection still runs. */
    method StrayAck(p: Player, sum: Checksum) returns (ghost drops: bool, ghost vs: seq<Checksum>)
      requires Valid() && Placed() && Inv(View()) && started
      requires p.Valid() && p.pid !in players && p in Repr && p.ackarr in Repr
      requires forall q | q in players :: players[q].ackarr != p.ackarr
      modifies this`ackarr, this`ackmask, this`players, this`seats, Repr
      ensures Valid() && Placed() && Inv(View()) && Within(players, old(players))
      ensures View() == old(View()) || Next(old(View()), Step.StrayAck(p.pid, drops, Obs(), vs), turnRate, View())
    {
      hide Linked, Inv;
      ghost var h := View();
      drops, vs := false, [];
      var l, t := EnqueueOff(players, seats, Repr, p, sum);
      if l < 0 || t > tick {
        return;
      }
      if TooFarAhead(l, turnRate) {
        drops := true;
        DropStragglers();
      }
      StepNeverPanics(h, Step.StrayAck(p.pid, drops, Obs(), []), turnRate);
      var panicked;
      panicked, vs := DrainAcks(p.pid);
      InvStep(h, Step.StrayAck(p.pid, drops, Obs(), vs), turnRate, View());
    }

    /** onPlayerLeft, with the panic of drainAcks. It keeps the barrier unless it comes too late. */
    method PlayerLeft(pid: Pid) returns (panicked: bool, ghost vs: seq<Checksum>)
      requires Valid() && Placed() && pid in leaving
      modifies this`ackarr, this`ackmask, this`players, this`seats, this`leaving, Repr
      ensures Valid() && Placed() && Within(players, old(players))
      ensures panicked <==> DrainPanics(old(View()), pid)
      ensures !panicked ==> Next(old(View()), Step.Left(pid, Obs(), vs), turnRate, View())
      ensures Inv(old(View())) && !LateLeft(old(View()), Step.Left(pid, Obs(), vs)) ==> !panicked && Inv(View())
    {
      hide Linked, Inv, LateLeft;
      ghost var h := View();
      leaving := leaving - multiset{pid};
      panicked, vs := DrainAcks(pid);
      ghost var s := Step.Left(pid, Obs(), vs);
      if Inv(h) && !LateLeft(h, s) {
        StepNeverPanics(h, s, turnRate);
        InvStep(h, s, turnRate, View());
      }
    }

    /** Lobby.join with onPlayerJoined, for a player whose slot has been set up. */
    method Join(p: Player)
      requires Valid() && Placed() && OwnRings(players) && Inv(View()) && !started
      requires p.Valid() && p.seat == Seat([], [], 0) && p.pid !in players && p.pid !in seats
      requires p.ackarr as object != this && Seated(slots, p.pid)
      requires forall q | q in players :: players[q].ackarr != p.ackarr
      modifies this`players, this`ackmask, this`seats, this`Repr
      ensures Valid() && Placed() && OwnRings(players) && Inv(View())
      ensures Next(old(View()), Step.Join(p.pid), turnRate, View())
      ensures players == old(players)[p.pid := p] && Repr == old(Repr) + {p, p.ackarr}
    {
      hide Linked, Inv;
      ghost var h := View();
      LinkedPlus(players, seats, Repr, p);
      players := players[p.pid := p];
      ackmask := Insert(ackmask, p.pid);
      seats := seats[p.pid := p.seat];
      Repr := Repr + {p, p.ackarr};
      InvStep(h, Step.Join(p.pid), turnRate, View());
    }

    /** The deletion in Lobby.onLeave; the PlayerLeft event comes later. */
    method Remove(pid: Pid)
      requires Valid() && Placed() && Inv(View())
      modifies this`players, this`seats, this`leaving
      ensures Valid() && Placed() && Within(players, old(players)) && Inv(View())
      ensures Next(old(View()), Step.Remove(pid), turnRate, View())
      ensures players == old(players) - {pid} && seats == old(seats) - {pid}
    {
      hide Linked, Inv;
      ghost var h := View();
      LinkedMinus(players, seats, Repr, {pid});
      players := players - {pid};
      seats := seats - {pid};
      leaving := leaving + multiset{pid};
      InvStep(h, Step.Remove(pid), turnRate, View());
    }
  }

  /** A new game in which a player has joined and left. */
  method Vacated(slots: seq<SlotData>, obsTeam: nat, turnRate: int, pid: Pid) returns (g: Game)
    requires Seated(slots, pid)
    ensures fresh(g) && fresh(g.Repr) && g.Valid() && g.Placed() && OwnRings(g.players) && Inv(g.View()) && g.slots == slots
    ensures g.View() == Host(map[], {pid}, multiset{pid}, false, 0) && g.players == map[]
  {
    hide Inv, Next, Linked;
    g := new Game(slots, obsTeam, turnRate);
    InitialInv();
    ghost var h0 := g.View();
    var p := new Player(pid);
    g.Join(p);
    ghost var h1 := g.View();
    g.Remove(pid);
    LeftBehind(turnRate, pid, h0, h1, g.View());
  }

  /** Another one has joined under the same id. */
  method Rejoined(slots: seq<SlotData>, obsTeam: nat, turnRate: int, pid: Pid) returns (g: Game)
    requires Seated(slots, pid)
    ensures fresh(g) && fresh(g.Repr) && g.Valid() && g.Placed() && pid in g.leaving && DrainPanics(g.View(), pid)
  {
    hide Inv, Next, Linked, DrainPanics;
    g := Vacated(slots, obsTeam, turnRate, pid);
    ghost var h := g.View();
    var q := new Player(pid);
    g.Join(q);
    ReusedId(g.turnRate, pid, h, g.View());
  }

  /** Handling the PlayerLeft event of the first one then panics. */
  method ReuseId(slots: seq<SlotData>, obsTeam: nat, turnRate: int, pid: Pid) returns (panicked: bool)
    requires Seated(slots, pid)
    ensures panicked
  {
    hide Inv, Next, Linked, LateLeft, DrainPanics;
    var g := Rejoined(slots, obsTeam, turnRate, pid);
    ghost var vs;
    panicked, vs := g.PlayerLeft(pid);
  }

  lemma LeftBehind(turnRate: int, pid: Pid, h0: Host, h1: Host, h2: Host)
    requires h0 == INITIAL && Next(h0, Step.Join(pid), turnRate, h1) && Next(h1, Step.Remove(pid), turnRate, h2)
    ensures h2 == Host(map[], {pid}, multiset{pid}, false, 0)
  {
    assert h2.mask == {pid} && h2.leaving == multiset{pid} && h2.players == map[];
  }

  lemma ReusedId(turnRate: int, pid: Pid, h: Host, h': Host)
    requires h == Host(map[], {pid}, multiset{pid}, false, 0) && Next(h, Step.Join(pid), turnRate, h')
    ensures pid in h'.leaving && DrainPanics(h', pid)
  {
    assert h'.mask == {pid} && h'.players[pid].queue == [];
  }

  lemma InitialInv()
    ensures Inv(INITIAL)
  {
  }
}
