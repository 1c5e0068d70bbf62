// Registration and removal of event handlers in network/events.go, interleaved with the passes
// over handler snapshots that Fire makes.

module Emitter {

  type Topic = string
  type PassId = nat

  const UINT32: nat := 0x1_0000_0000

  datatype Handler = Handler(id: nat, once: bool)

  type Handlers = seq<Handler>

  /** One run of `fire` over a snapshot: the first `done` handlers have been called, and
      `stopped` says that the last of them prevented the rest. */
  datatype Pass = Pass(topic: Topic, snap: Handlers, done: nat, stopped: bool)

  /** `calls` counts, as history, how often each handler id has been called. */
  datatype State = State(id: nat, handlers: map<Topic, Handlers>, passes: map<PassId, Pass>, calls: multiset<nat>)

  const INITIAL: State := State(0, map[], map[], multiset{})

  function Listed(hm: map<Topic, Handlers>, t: Topic): Handlers {
    if t in hm then hm[t] else []
  }

  // ---- The filters --------------------------------------------------------

  /** Off */
  function WithoutId(hs: Handlers, id: nat): Handlers {
    if hs == [] then [] else (if hs[0].id != id then [hs[0]] else []) + WithoutId(hs[1..], id)
  }

  /** What Off leaves, handler by handler, and in which order. */
  lemma {:induction false} WithoutIdKeeps(hs: Handlers, id: nat)
    ensures forall h :: h in WithoutId(hs, id) <==> h in hs && h.id != id
    ensures (forall h | h in hs :: h.id != id) ==> WithoutId(hs, id) == hs
    decreases |hs|
  {
    if hs != [] {
      WithoutIdKeeps(hs[1..], id);
      assert hs == [hs[0]] + hs[1..];
    }
  }

  /** In the middle of a list: exactly the one with the id goes, and the others stay where they are. */
  lemma {:induction false} WithoutIdTakes(a: Handlers, h: Handler, b: Handlers)
    requires forall g | g in a + b :: g.id != h.id
    ensures WithoutId(a + [h] + b, h.id) == a + b
    decreases |a|
  {
    if a == [] {
      assert (a + [h] + b)[1..] == b && a + b == b;
      WithoutIdKeeps(b, h.id);
    } else {
      assert (a + [h] + b)[1..] == a[1..] + [h] + b && a + b == [a[0]] + (a[1..] + b);
      WithoutIdTakes(a[1..], h, b);
    }
  }

  /** offOnce: drops the once-handlers with an id in the range. */
  function OffOnce(hs: Handlers, minID: nat, maxID: nat): Handlers {
    if hs == [] then []
    else (if hs[0].id > maxID || hs[0].id < minID || !hs[0].once then [hs[0]] else []) + OffOnce(hs[1..], minID, maxID)
  }

  /** The handlers that stay when the once-handlers among `called` go. */
  function Without(hs: Handlers, called: Handlers): Handlers {
    if hs == [] then []
    else (if hs[0].once && hs[0] in called then [] else [hs[0]]) + Without(hs[1..], called)
  }

  // ---- Steps --------------------------------------------------------------

  datatype Step =
    | Add(topic: Topic, once: bool)
    | Off(topic: Topic, id: nat)
    | OffAll(topic: Topic)
    | Snapshot(p: PassId, topic: Topic)
    | Call(p: PassId, prevent: bool)
    | Finish(p: PassId)
    | Abandon(p: PassId)

  function Called(p: Pass): Handlers
    requires p.done <= |p.snap|
  {
    p.snap[..p.done]
  }

  /** The end of `fire`. */
  function AfterPass(hs: Handlers, p: Pass): Handlers
    requires p.done <= |p.snap|
  {
    if exists h | h in Called(p) :: h.once then OffOnce(hs, p.snap[p.done - 1].id, p.snap[0].id) else hs
  }

  ghost predicate Next(s: State, e: Step, s': State) {
    match e
    case Add(t, once) =>
      && s.id + 1 < UINT32
      && s' == s.(id := s.id + 1, handlers := s.handlers[t := [Handler(s.id + 1, once)] + Listed(s.handlers, t)])
    case Off(t, id) =>
      s' == s.(handlers := s.handlers[t := WithoutId(Listed(s.handlers, t), id)])
    case OffAll(t) =>
      s' == s.(handlers := s.handlers[t := []])
    case Snapshot(p, t) =>
      p !in s.passes && s' == s.(passes := s.passes[p := Pass(t, Listed(s.handlers, t), 0, false)])
    case Call(p, prevent) =>
      && p in s.passes && !s.passes[p].stopped && s.passes[p].done < |s.passes[p].snap|
      && var pass := s.passes[p];
         s' == s.(passes := s.passes[p := pass.(done := pass.done + 1, stopped := prevent)],
                  calls := s.calls + multiset{pass.snap[pass.done].id})
    case Finish(p) =>
      && p in s.passes && s.passes[p].done <= |s.passes[p].snap|
      && (s.passes[p].stopped || s.passes[p].done == |s.passes[p].snap|)
      && var pass := s.passes[p];
         s' == s.(handlers := s.handlers[pass.topic := AfterPass(Listed(s.handlers, pass.topic), pass)], passes := s.passes - {p})
    case Abandon(p) =>
      p in s.passes && s.passes[p].done == 0 && s' == s.(passes := s.passes - {p})
  }

  ghost predicate IsRun(states: seq<State>, steps: seq<Step>) {
    && |states| == |steps| + 1
    && states[0] == INITIAL
    && forall i | 0 <= i < |steps| :: Next(states[i], steps[i], states[i + 1])
  }

  // ---- The map before the first registration ------------------------------

  /** Nothing has been registered, so nothing is listed or in a snapshot. */
  ghost predicate Unregistered(s: State) {
    && (forall t | t in s.handlers :: s.handlers[t] == [])
    && (forall p | p in s.passes :: s.passes[p].snap == [])
  }

  lemma UnregisteredStep(s: State, e: Step, s': State)
    requires (s.id == 0 ==> Unregistered(s)) && Next(s, e, s')
    ensures s'.id == 0 ==> Unregistered(s')
  {
  }

  /** In every run a pass that has called a once-handler finishes on a map that has been made. */
  lemma {:induction false} FinishIsRegistered(states: seq<State>, steps: seq<Step>, i: nat)
    requires IsRun(states, steps) && i < |states|
    ensures states[i].id == 0 ==> Unregistered(states[i])
    ensures forall p | p in states[i].passes && states[i].passes[p].snap != [] :: states[i].id > 0
  {
    if i > 0 {
      FinishIsRegistered(states, steps, i - 1);
      UnregisteredStep(states[i - 1], steps[i - 1], states[i]);
    }
  }

  // ---- Invariant ----------------------------------------------------------

  /** Newest first. */
  predicate Descending(hs: Handlers) {
    forall i, j | 0 <= i < j < |hs| :: hs[i].id > hs[j].id
  }

  /** Handlers no newer than the newest of the snapshot were in the snapshot. */
  ghost predicate Covers(pass: Pass, hs: Handlers) {
    pass.snap != [] ==> forall h | h in hs && h.id <= pass.snap[0].id :: h in pass.snap
  }

  ghost predicate ListOk(s: State, t: Topic) {
    Descending(Listed(s.handlers, t)) && forall h | h in Listed(s.handlers, t) :: 0 < h.id <= s.id
  }

  ghost predicate PassOk(s: State, pass: Pass) {
    && Descending(pass.snap) && pass.done <= |pass.snap|
    && (forall h | h in pass.snap :: 0 < h.id <= s.id)
    && Covers(pass, Listed(s.handlers, pass.topic))
  }

  ghost predicate Inv(s: State) {
    && (forall t :: ListOk(s, t))
    && (forall p | p in s.passes :: PassOk(s, s.passes[p]))
  }

  predicate SubList(hs: Handlers, all: Handlers) {
    Descending(hs) && forall h | h in hs :: h in all
  }

  lemma Prepend(hs: Handlers, tail: Handlers)
    requires hs != [] && Descending(hs) && SubList(tail, hs[1..])
    ensures SubList([hs[0]] + tail, hs) && SubList(tail, hs)
  {
    forall h | h in tail
      ensures h.id < hs[0].id
    {
      var k :| 0 <= k < |hs[1..]| && hs[1..][k] == h;
    }
    var all := [hs[0]] + tail;
    forall i, j | 0 <= i < j < |all|
      ensures all[i].id > all[j].id
    {
      assert all[j] == tail[j - 1];
      assert tail[j - 1] in tail;
    }
  }

  lemma {:induction false} WithoutIdIs(hs: Handlers, id: nat)
    requires Descending(hs)
    ensures SubList(WithoutId(hs, id), hs)
    decreases |hs|
  {
    if hs != [] {
      WithoutIdIs(hs[1..], id);
      Prepend(hs, WithoutId(hs[1..], id));
    }
  }

  lemma {:induction false} OffOnceIs(hs: Handlers, minID: nat, maxID: nat)
    requires Descending(hs)
    ensures SubList(OffOnce(hs, minID, maxID), hs)
    decreases |hs|
  {
    if hs != [] {
      OffOnceIs(hs[1..], minID, maxID);
      Prepend(hs, OffOnce(hs[1..], minID, maxID));
    }
  }

  /** Shrinking or growing one list at its newest end keeps the invariant. */
  lemma InvList(s: State, t: Topic, hs: Handlers, s': State)
    requires Inv(s) && SubList(hs, Listed(s.handlers, t))
    requires s' == s.(handlers := s.handlers[t := hs], passes := s'.passes) && s'.passes.Keys <= s.passes.Keys
    requires forall p | p in s'.passes :: s'.passes[p] == s.passes[p]
    ensures Inv(s')
  {
    forall u
      ensures ListOk(s', u)
    {
      assert ListOk(s, u);
    }
    forall p | p in s'.passes
      ensures PassOk(s', s'.passes[p])
    {
      assert PassOk(s, s.passes[p]);
    }
  }

  lemma InvAdd(s: State, t: Topic, once: bool, s': State)
    requires Inv(s) && Next(s, Add(t, once), s')
    ensures Inv(s')
  {
    forall u
      ensures ListOk(s', u)
    {
      assert ListOk(s, u);
    }
    forall p | p in s'.passes
      ensures PassOk(s', s'.passes[p])
    {
      var pass := s.passes[p];
      assert PassOk(s, pass);
      assert pass.snap != [] ==> pass.snap[0] in pass.snap;
    }
  }

  lemma InvStep(s: State, e: Step, s': State)
    requires Inv(s) && Next(s, e, s')
    ensures Inv(s')
  {
    match e
    case Add(t, once) => InvAdd(s, t, once, s');
    case Off(t, id) =>
      assert ListOk(s, t);
      WithoutIdIs(Listed(s.handlers, t), id);
      InvList(s, t, WithoutId(Listed(s.handlers, t), id), s');
    case OffAll(t) => InvList(s, t, [], s');
    case Finish(p) =>
      var pass := s.passes[p];
      assert ListOk(s, pass.topic) && PassOk(s, pass);
      if exists h | h in Called(pass) :: h.once {
        OffOnceIs(Listed(s.handlers, pass.topic), pass.snap[pass.done - 1].id, pass.snap[0].id);
      }
      InvList(s, pass.topic, AfterPass(Listed(s.handlers, pass.topic), pass), s');
    case Snapshot(p, t) => InvPasses(s, e, s');
    case Call(p, prevent) => InvPasses(s, e, s');
    case Abandon(p) => InvPasses(s, e, s');
  }

  lemma InvPasses(s: State, e: Step, s': State)
    requires Inv(s) && Next(s, e, s') && (e.Snapshot? || e.Call? || e.Abandon?)
    ensures Inv(s')
  {
    forall u
      ensures ListOk(s', u)
    {
      assert ListOk(s, u);
    }
    forall q | q in s'.passes
      ensures PassOk(s', s'.passes[q])
    {
      if e.Snapshot? && q == e.p {
        assert ListOk(s, e.topic);
      } else {
        assert PassOk(s, s.passes[q]);
      }
    }
  }

  lemma {:induction false} RunKeepsInv(states: seq<State>, steps: seq<Step>, i: nat)
    requires IsRun(states, steps) && i < |states|
    ensures Inv(states[i])
  {
    if i > 0 {
      RunKeepsInv(states, steps, i - 1);
      InvStep(states[i - 1], steps[i - 1], states[i]);
    }
  }

  // ---- The id range removes exactly what was called -----------------------

  lemma {:induction false} RangeIsCalled(hs: Handlers, pass: Pass)
    requires Descending(pass.snap) && 0 < pass.done <= |pass.snap| && Covers(pass, hs)
    ensures OffOnce(hs, pass.snap[pass.done - 1].id, pass.snap[0].id) == Without(hs, Called(pass))
    decreases |hs|
  {
    if hs != [] {
      var h := hs[0];
      var minID, maxID := pass.snap[pass.done - 1].id, pass.snap[0].id;
      if h in Called(pass) {
        var k :| 0 <= k < pass.done && Called(pass)[k] == h;
        assert minID <= h.id <= maxID;
      }
      if minID <= h.id <= maxID {
        var k :| 0 <= k < |pass.snap| && pass.snap[k] == h;
        assert k < pass.done;
        assert Called(pass)[k] == h;
      }
      RangeIsCalled(hs[1..], pass);
    }
  }

  lemma {:induction false} NothingToRemove(hs: Handlers, called: Handlers)
    requires forall h | h in called :: !h.once
    ensures Without(hs, called) == hs
    decreases |hs|
  {
    if hs != [] {
      NothingToRemove(hs[1..], called);
    }
  }

  /** A finished pass takes out of its topic exactly the once-handlers it has called: none that a
      PreventNext skipped and none registered since the snapshot. Other topics stay as they are. */
  lemma FinishRemovesCalled(states: seq<State>, steps: seq<Step>, i: nat, p: PassId)
    requires IsRun(states, steps) && i < |steps| && steps[i] == Finish(p)
    ensures p in states[i].passes && states[i].passes[p].done <= |states[i].passes[p].snap|
    ensures var pass := states[i].passes[p];
      && Listed(states[i + 1].handlers, pass.topic) == Without(Listed(states[i].handlers, pass.topic), Called(pass))
      && forall t | t != pass.topic :: Listed(states[i + 1].handlers, t) == Listed(states[i].handlers, t)
  {
    var s, s' := states[i], states[i + 1];
    assert Next(s, Finish(p), s');
    RunKeepsInv(states, steps, i);
    var pass := s.passes[p];
    assert PassOk(s, pass);
    PassRemovesCalled(Listed(s.handlers, pass.topic), pass);
  }

  // ---- Once ---------------------------------------------------------------

  /** The pass is still going to call h. */
  predicate Pending(pass: Pass, h: Handler) {
    pass.done <= |pass.snap| && !pass.stopped && h in pass.snap[pass.done..]
  }

  predicate HasCalled(pass: Pass, h: Handler) {
    pass.done <= |pass.snap| && h in Called(pass)
  }

  /** No unfinished pass has called, or is going to call, a once-handler that is listed under t. */
  ghost predicate Safe(s: State, t: Topic) {
    forall p, h | p in s.passes && h in Listed(s.handlers, t) && h.once ::
      !HasCalled(s.passes[p], h) && !Pending(s.passes[p], h)
  }

  /** Nothing but h carries its id, and h is found under t only. */
  ghost predicate Sole(s: State, h: Handler, t: Topic) {
    && 0 < h.id <= s.id
    && (forall u, g | g in Listed(s.handlers, u) && g.id == h.id :: u == t && g == h)
    && (forall p, g | p in s.passes && g in s.passes[p].snap && g.id == h.id :: s.passes[p].topic == t && g == h)
  }

  /** The once-handler h has been called at most once, and no two passes are about to call it. */
  ghost predicate OnceOk(s: State, h: Handler, t: Topic) {
    && Sole(s, h, t)
    && s.calls[h.id] <= 1
    && (forall p | p in s.passes && Pending(s.passes[p], h) :: h.id !in s.calls)
    && (forall p, q | p in s.passes && q in s.passes && Pending(s.passes[p], h) && Pending(s.passes[q], h) :: p == q)
    && (h in Listed(s.handlers, t) && h.id in s.calls ==> exists p | p in s.passes :: HasCalled(s.passes[p], h))
  }

  /** Calls go to registered ids; what an unfinished pass has called has been counted. */
  ghost predicate CallsOk(s: State) {
    && (forall i | i in s.calls :: i <= s.id)
    && (forall p, h | p in s.passes && HasCalled(s.passes[p], h) :: h.id in s.calls)
  }

  lemma CallsStep(s: State, e: Step, s': State)
    requires Inv(s) && CallsOk(s) && Next(s, e, s')
    ensures CallsOk(s')
  {
    if e.Call? {
      var pass := s.passes[e.p];
      assert PassOk(s, pass);
      assert pass.snap[pass.done] in pass.snap;
      forall h | HasCalled(s'.passes[e.p], h)
        ensures h.id in s'.calls
      {
        assert HasCalled(pass, h) || h == pass.snap[pass.done];
      }
    }
  }

  lemma {:induction false} RunKeepsCalls(states: seq<State>, steps: seq<Step>, i: nat)
    requires IsRun(states, steps) && i < |states|
    ensures CallsOk(states[i])
  {
    if i > 0 {
      RunKeepsCalls(states, steps, i - 1);
      RunKeepsInv(states, steps, i - 1);
      CallsStep(states[i - 1], steps[i - 1], states[i]);
    }
  }

  /** A handler just registered under a new id. */
  lemma OnceStart(s: State, t: Topic, s': State)
    requires Inv(s) && CallsOk(s) && Next(s, Add(t, true), s')
    ensures OnceOk(s', Handler(s'.id, true), t)
  {
    forall u, g | g in Listed(s'.handlers, u) && g.id == s'.id
      ensures u == t && g == Handler(s'.id, true)
    {
      assert ListOk(s, u);
      assert g !in Listed(s.handlers, u);
    }
    forall p, g | p in s'.passes && g in s'.passes[p].snap
      ensures g.id < s'.id
    {
      assert PassOk(s, s.passes[p]);
    }
  }

  /** Steps that only shorten the list of one topic. */
  lemma OnceShorter(s: State, h: Handler, t: Topic, u: Topic, hs: Handlers, s': State)
    requires OnceOk(s, h, t) && s' == s.(handlers := s.handlers[u := hs])
    requires forall g | g in hs :: g in Listed(s.handlers, u)
    ensures OnceOk(s', h, t)
  {
    assert forall v | v != u :: Listed(s'.handlers, v) == Listed(s.handlers, v);
    assert Listed(s'.handlers, u) == hs;
  }

  lemma OnceFinish(s: State, h: Handler, t: Topic, p: PassId, s': State)
    requires h.once && Inv(s) && OnceOk(s, h, t) && Next(s, Finish(p), s')
    ensures OnceOk(s', h, t)
  {
    var pass := s.passes[p];
    assert PassOk(s, pass);
    var hs := Listed(s.handlers, pass.topic);
    PassRemovesCalled(hs, pass);
    WithoutIs(hs, Called(pass));
    var mid := s.(handlers := s'.handlers);
    OnceShorter(s, h, t, pass.topic, Without(hs, Called(pass)), mid);
    assert HasCalled(pass, h) ==> pass.topic == t;
    OncePassGone(mid, h, t, p, s');
  }

  lemma OncePassGone(s: State, h: Handler, t: Topic, p: PassId, s': State)
    requires OnceOk(s, h, t) && p in s.passes && s' == s.(passes := s.passes - {p})
    requires HasCalled(s.passes[p], h) ==> h !in Listed(s.handlers, t)
    ensures OnceOk(s', h, t)
  {
    if h in Listed(s'.handlers, t) && h.id in s'.calls {
      var q :| q in s.passes && HasCalled(s.passes[q], h);
      assert q in s'.passes && HasCalled(s'.passes[q], h);
    }
  }

  lemma PassRemovesCalled(hs: Handlers, pass: Pass)
    requires Descending(pass.snap) && pass.done <= |pass.snap| && Covers(pass, hs)
    ensures AfterPass(hs, pass) == Without(hs, Called(pass))
  {
    hide OffOnce, Without, Descending, Covers;
    if exists g | g in Called(pass) :: g.once {
      RangeIsCalled(hs, pass);
    } else {
      NothingToRemove(hs, Called(pass));
    }
  }

  lemma {:induction false} WithoutIs(hs: Handlers, called: Handlers)
    ensures forall h :: h in Without(hs, called) <==> h in hs && !(h.once && h in called)
    decreases |hs|
  {
    if hs != [] {
      WithoutIs(hs[1..], called);
    }
  }

  /** What one call changes for h. */
  lemma CallOne(pass: Pass, pass': Pass, h: Handler, prevent: bool)
    requires Descending(pass.snap) && pass.done < |pass.snap| && !pass.stopped
    requires pass' == pass.(done := pass.done + 1, stopped := prevent)
    ensures Pending(pass', h) ==> Pending(pass, h) && h != pass.snap[pass.done]
    ensures pass.snap[pass.done] == h ==> Pending(pass, h) && HasCalled(pass', h)
    ensures HasCalled(pass, h) ==> HasCalled(pass', h)
  {
    var g := pass.snap[pass.done];
    assert pass.snap[pass.done..] == [g] + pass.snap[pass'.done..];
    assert Called(pass') == Called(pass) + [g];
    if g == h {
      LaterIsOther(pass, h);
    }
  }

  /** A call moves one pass on and counts the handler. */
  lemma CallChanges(s: State, p: PassId, prevent: bool, s': State)
    requires Inv(s) && Next(s, Call(p, prevent), s')
    ensures p in s.passes && p in s'.passes && Descending(s.passes[p].snap)
    ensures var pass := s.passes[p];
      && pass.done < |pass.snap| && !pass.stopped
      && s' == s.(passes := s.passes[p := pass.(done := pass.done + 1, stopped := prevent)],
                  calls := s.calls + multiset{pass.snap[pass.done].id})
  {
    assert PassOk(s, s.passes[p]);
  }

  lemma SoleStays(s: State, h: Handler, t: Topic, s': State)
    requires Sole(s, h, t) && s'.id == s.id && s'.handlers == s.handlers && s'.passes.Keys == s.passes.Keys
    requires forall q | q in s.passes :: s'.passes[q].snap == s.passes[q].snap && s'.passes[q].topic == s.passes[q].topic
    ensures Sole(s', h, t)
  {
  }

  lemma SoleAt(s: State, h: Handler, t: Topic, p: PassId, i: nat)
    requires Sole(s, h, t) && p in s.passes && i < |s.passes[p].snap| && s.passes[p].snap[i].id == h.id
    ensures s.passes[p].snap[i] == h
  {
    assert s.passes[p].snap[i] in s.passes[p].snap;
  }

  lemma OnceCall(s: State, h: Handler, t: Topic, p: PassId, prevent: bool, s': State)
    requires h.once && Inv(s) && OnceOk(s, h, t) && Next(s, Call(p, prevent), s')
    ensures OnceOk(s', h, t)
  {
    hide Sole, Pending, HasCalled, Inv, Next, Descending;
    CallChanges(s, p, prevent, s');
    var pass, pass' := s.passes[p], s'.passes[p];
    var g := pass.snap[pass.done];
    SoleStays(s, h, t, s');
    CallOne(pass, pass', h, prevent);
    if g.id == h.id {
      SoleAt(s, h, t, p, pass.done);
    }
    forall q | q in s'.passes && Pending(s'.passes[q], h)
      ensures Pending(s.passes[q], h) && g.id != h.id
    {
      assert Pending(s.passes[q], h);
    }
    if h in Listed(s'.handlers, t) && h.id in s'.calls {
      if g == h {
        assert HasCalled(s'.passes[p], h);
      } else {
        var q :| q in s.passes && HasCalled(s.passes[q], h);
        assert HasCalled(s'.passes[q], h);
      }
    }
  }

  lemma LaterIsOther(pass: Pass, h: Handler)
    requires Descending(pass.snap) && pass.done < |pass.snap| && pass.snap[pass.done] == h
    ensures h !in pass.snap[pass.done + 1..]
  {
  }

  lemma OnceSnapshot(s: State, h: Handler, t: Topic, p: PassId, u: Topic, s': State)
    requires h.once && Inv(s) && OnceOk(s, h, t) && Safe(s, u) && Next(s, Snapshot(p, u), s')
    ensures OnceOk(s', h, t)
  {
    assert Listed(s.handlers, u)[0..] == Listed(s.handlers, u);
    forall q | q in s'.passes && Pending(s'.passes[q], h)
      ensures h.id !in s'.calls
    {
      assert q == p ==> h in Listed(s.handlers, u);
    }
    if h in Listed(s.handlers, t) && h.id in s.calls {
      var q :| q in s.passes && HasCalled(s.passes[q], h);
      assert HasCalled(s'.passes[q], h);
    }
  }

  lemma OnceStep(s: State, e: Step, s': State, h: Handler, t: Topic)
    requires h.once && Inv(s) && OnceOk(s, h, t) && Next(s, e, s')
    requires e.Snapshot? ==> Safe(s, e.topic)
    ensures OnceOk(s', h, t)
  {
    match e
    case Add(u, once) =>
      assert forall v | v != u :: Listed(s'.handlers, v) == Listed(s.handlers, v);
      assert Listed(s'.handlers, u) == [Handler(s.id + 1, once)] + Listed(s.handlers, u);
    case Off(u, id) =>
      assert ListOk(s, u);
      WithoutIdIs(Listed(s.handlers, u), id);
      OnceShorter(s, h, t, u, WithoutId(Listed(s.handlers, u), id), s');
    case OffAll(u) => OnceShorter(s, h, t, u, [], s');
    case Snapshot(p, u) => OnceSnapshot(s, h, t, p, u, s');
    case Call(p, prevent) => OnceCall(s, h, t, p, prevent, s');
    case Finish(p) => OnceFinish(s, h, t, p, s');
    case Abandon(p) => OncePassGone(s, h, t, p, s');
  }

  ghost predicate AllSafe(states: seq<State>, steps: seq<Step>)
    requires IsRun(states, steps)
  {
    forall j | 0 <= j < |steps| && steps[j].Snapshot? :: Safe(states[j], steps[j].topic)
  }

  lemma {:induction false} OnceRun(states: seq<State>, steps: seq<Step>, k: nat, t: Topic, i: nat)
    requires IsRun(states, steps) && AllSafe(states, steps)
    requires k < |steps| && steps[k] == Add(t, true) && k < i < |states|
    ensures OnceOk(states[i], Handler(states[k].id + 1, true), t)
    decreases i
  {
    hide OnceOk, Inv, Safe;
    RunKeepsInv(states, steps, i - 1);
    if i == k + 1 {
      RunKeepsCalls(states, steps, k);
      OnceStart(states[k], t, states[k + 1]);
    } else {
      OnceRun(states, steps, k, t, i - 1);
      OnceStep(states[i - 1], steps[i - 1], states[i], Handler(states[k].id + 1, true), t);
    }
  }

  /** If every pass starts when that is safe, a once-handler is called at most once in the whole run. */
  lemma OnceAtMostOnce(states: seq<State>, steps: seq<Step>, k: nat, t: Topic, i: nat)
    requires IsRun(states, steps) && AllSafe(states, steps)
    requires k < |steps| && steps[k] == Add(t, true) && k < i < |states|
    ensures states[i].calls[states[k].id + 1] <= 1
  {
    OnceRun(states, steps, k, t, i);
  }

  // ---- Unsafe passes call twice -------------------------------------------

  ghost predicate Follows(s: State, steps: seq<Step>, s': State)
    decreases |steps|
  {
    if steps == [] then s' == s
    else exists mid :: Next(s, steps[0], mid) && Follows(mid, steps[1..], s')
  }

  lemma FollowsFirst(s: State, e: Step, mid: State, steps: seq<Step>, s': State)
    requires Next(s, e, mid) && Follows(mid, steps, s')
    ensures Follows(s, [e] + steps, s')
  {
    assert ([e] + steps)[1..] == steps;
  }

  lemma {:induction false} FollowsAppend(s: State, steps: seq<Step>, mid: State, more: seq<Step>, s': State)
    requires Follows(s, steps, mid) && Follows(mid, more, s')
    ensures Follows(s, steps + more, s')
    decreases |steps|
  {
    hide Next;
    if steps == [] {
      assert steps + more == more;
    } else {
      var next :| Next(s, steps[0], next) && Follows(next, steps[1..], mid);
      FollowsAppend(next, steps[1..], mid, more, s');
      FollowsFirst(s, steps[0], next, steps[1..] + more, s');
      assert [steps[0]] + (steps[1..] + more) == steps + more;
    }
  }

  /** A pass that has not been stopped can go on until it has called its k-th handler. */
  lemma {:induction false} CallThrough(s: State, p: PassId, k: nat) returns (steps: seq<Step>, s': State)
    requires p in s.passes && !s.passes[p].stopped && s.passes[p].done <= k < |s.passes[p].snap|
    ensures Follows(s, steps, s')
    ensures forall q | q in s.passes && q != p :: q in s'.passes && s'.passes[q] == s.passes[q]
    ensures s.calls + multiset{s.passes[p].snap[k].id} <= s'.calls
    decreases k - s.passes[p].done
  {
    var pass := s.passes[p];
    var mid := s.(passes := s.passes[p := pass.(done := pass.done + 1, stopped := false)],
                  calls := s.calls + multiset{pass.snap[pass.done].id});
    assert Next(s, Call(p, false), mid);
    if pass.done == k {
      steps, s' := [], mid;
    } else {
      steps, s' := CallThrough(mid, p, k);
    }
    FollowsFirst(s, Call(p, false), mid, steps, s');
    steps := [Call(p, false)] + steps;
  }

  /** A pass that has called h, or still can, brings its count to one at least. */
  lemma CallBy(s: State, p: PassId, h: Handler) returns (steps: seq<Step>, s': State)
    requires p in s.passes && s.passes[p].done <= |s.passes[p].snap|
    requires Pending(s.passes[p], h) || h.id in s.calls
    ensures Follows(s, steps, s') && h.id in s'.calls
    ensures forall q | q in s.passes && q != p :: q in s'.passes && s'.passes[q] == s.passes[q]
  {
    var pass := s.passes[p];
    if h.id in s.calls {
      steps, s' := [], s;
    } else {
      var j :| 0 <= j < |pass.snap[pass.done..]| && pass.snap[pass.done..][j] == h;
      steps, s' := CallThrough(s, p, pass.done + j);
    }
  }

  /** A pass started when that is not safe can end up calling a once-handler a second time. */
  lemma UnsafeCallsTwice(s: State, t: Topic, q: PassId) returns (h: Handler, steps: seq<Step>, s': State)
    requires CallsOk(s) && q !in s.passes && !Safe(s, t)
    ensures h.once && h in Listed(s.handlers, t)
    ensures Follows(s, [Snapshot(q, t)] + steps, s')
    ensures s'.calls[h.id] >= 2
  {
    hide Follows;
    var p, once :| p in s.passes && once in Listed(s.handlers, t) && once.once
      && (HasCalled(s.passes[p], once) || Pending(s.passes[p], once));
    h := once;
    var hs := Listed(s.handlers, t);
    var s1 := s.(passes := s.passes[q := Pass(t, hs, 0, false)]);
    assert Next(s, Snapshot(q, t), s1);
    var k :| 0 <= k < |hs| && hs[k] == h;
    var first, s2 := CallBy(s1, p, h);
    hide Next, CallsOk, Safe;
    var second;
    second, s' := CallThrough(s2, q, k);
    FollowsAppend(s1, first, s2, second, s');
    steps := first + second;
    FollowsFirst(s, Snapshot(q, t), s1, steps, s');
  }

  // ---- The emitter object -------------------------------------------------

  /** Lets a filter go on from the i-th element. */
  lemma {:induction false} WithoutIdNext(hs: Handlers, i: nat, id: nat)
    requires i < |hs|
    ensures WithoutId(hs[..i + 1], id) == WithoutId(hs[..i], id) + if hs[i].id != id then [hs[i]] else []
    ensures |WithoutId(hs[..i], id)| <= i
    decreases |hs|
  {
    if i > 0 {
      WithoutIdNext(hs[1..], i - 1, id);
      assert hs[..i + 1][1..] == hs[1..][..i] && hs[..i][1..] == hs[1..][..i - 1];
    } else {
      assert hs[..1][1..] == [];
    }
  }

  lemma {:induction false} OffOnceNext(hs: Handlers, i: nat, minID: nat, maxID: nat)
    requires i < |hs|
    ensures OffOnce(hs[..i + 1], minID, maxID) == OffOnce(hs[..i], minID, maxID) +
      if hs[i].id > maxID || hs[i].id < minID || !hs[i].once then [hs[i]] else []
    ensures |OffOnce(hs[..i], minID, maxID)| <= i
    decreases |hs|
  {
    if i > 0 {
      OffOnceNext(hs[1..], i - 1, minID, maxID);
      assert hs[..i + 1][1..] == hs[1..][..i] && hs[..i][1..] == hs[1..][..i - 1];
    } else {
      assert hs[..1][1..] == [];
    }
  }

  /** EventEmitter without its pool; the map is nil until the first registration. */
  class EventEmitter {
    var id: nat
    var handlers: map<Topic, Handlers>
    var ready: bool

    constructor ()
      ensures id == 0 && handlers == map[] && !ready
    {
      id, handlers, ready := 0, map[], false;
    }

    method AddHandler(t: Topic, once: bool) returns (h: nat)
      requires id < UINT32
      modifies this
      ensures ready && h == id == (old(id) + 1) % UINT32
      ensures handlers == old(handlers)[t := [Handler(h, once)] + Listed(old(handlers), t)]
    {
      id := (id + 1) % UINT32;
      h := id;
      if !ready {
        ready := true;
      }
      handlers := handlers[t := [Handler(id, once)] + if t in handlers then handlers[t] else []];
    }

    /** Before the first registration the map is nil, and writing to it panics. */
    method Off(t: Topic, h: nat) returns (panicked: bool)
      modifies this`handlers
      ensures panicked <==> !ready
      ensures handlers == if panicked then old(handlers)
                          else old(handlers)[t := WithoutId(Listed(old(handlers), t), h)]
    {
      var arr := Copy(if t in handlers then handlers[t] else []);
      var end := RemoveId(arr, h);
      panicked := Store(t, arr[..end]);
    }

    method OffAll(t: Topic) returns (panicked: bool)
      modifies this`handlers
      ensures panicked <==> !ready
      ensures handlers == if panicked then old(handlers) else old(handlers)[t := []]
    {
      panicked := Store(t, []);
    }

    method OffOnceRange(t: Topic, minID: nat, maxID: nat) returns (panicked: bool)
      modifies this`handlers
      ensures panicked <==> !ready
      ensures handlers == if panicked then old(handlers)
                          else old(handlers)[t := OffOnce(Listed(old(handlers), t), minID, maxID)]
    {
      var arr := Copy(if t in handlers then handlers[t] else []);
      var end := RemoveOnce(arr, minID, maxID);
      panicked := Store(t, arr[..end]);
    }

    /** An assignment to an element of the map. */
    method Store(t: Topic, hs: Handlers) returns (panicked: bool)
      modifies this`handlers
      ensures panicked <==> !ready
      ensures handlers == if panicked then old(handlers) else old(handlers)[t := hs]
    {
      if !ready {
        return true;
      }
      handlers := handlers[t := hs];
      return false;
    }

    /** The end of `fire` for a pass that has made its calls. */
    method FinishPass(pass: Pass) returns (panicked: bool)
      requires pass.done <= |pass.snap|
      modifies this`handlers
      ensures panicked <==> !ready && exists h | h in Called(pass) :: h.once
      ensures panicked ==> handlers == old(handlers)
      ensures !panicked ==> Listed(handlers, pass.topic) == AfterPass(Listed(old(handlers), pass.topic), pass)
      ensures forall t | t != pass.topic :: Listed(handlers, t) == Listed(old(handlers), t)
    {
      panicked := false;
      var once := false;
      var minID := UINT32 - 1;
      for i := 0 to pass.done
        invariant once <==> exists h | h in pass.snap[..i] :: h.once
        invariant i > 0 ==> minID == pass.snap[i - 1].id
      {
        assert pass.snap[..i + 1] == pass.snap[..i] + [pass.snap[i]];
        minID := pass.snap[i].id;
        if pass.snap[i].once {
          once := true;
        }
      }
      if once {
        panicked := OffOnceRange(pass.topic, minID, pass.snap[0].id);
      }
    }
  }

  /** Off with nobody registered yet. */
  method OffUnregistered(t: Topic, h: nat) returns (panicked: bool)
    ensures panicked
  {
    var e := new EventEmitter();
    panicked := e.Off(t, h);
  }

  /** The loop of Off: the handlers that stay are moved to the front. */
  method RemoveId(arr: array<Handler>, id: nat) returns (end: nat)
    modifies arr
    ensures end <= arr.Length && arr[..end] == WithoutId(old(arr[..]), id)
  {
    hide WithoutId;
    ghost var hs := arr[..];
    ghost var kept: Handlers := [];
    end := 0;
    WithoutIdNone(id);
    for i := 0 to arr.Length
      invariant end == |kept| <= i && kept == WithoutId(hs[..i], id)
      invariant forall k | 0 <= k < end :: arr[k] == kept[k]
      invariant forall k | i <= k < arr.Length :: arr[k] == hs[k]
    {
      WithoutIdNext(hs, i, id);
      if arr[i].id != id {
        arr[end] := arr[i];
        end := end + 1;
        kept := kept + [hs[i]];
      }
    }
    assert hs[..|hs|] == hs;
  }

  /** The loop of offOnce. */
  method RemoveOnce(arr: array<Handler>, minID: nat, maxID: nat) returns (end: nat)
    modifies arr
    ensures end <= arr.Length && arr[..end] == OffOnce(old(arr[..]), minID, maxID)
  {
    hide OffOnce;
    ghost var hs := arr[..];
    ghost var kept: Handlers := [];
    end := 0;
    OffOnceNone(minID, maxID);
    for i := 0 to arr.Length
      invariant end == |kept| <= i && kept == OffOnce(hs[..i], minID, maxID)
      invariant forall k | 0 <= k < end :: arr[k] == kept[k]
      invariant forall k | i <= k < arr.Length :: arr[k] == hs[k]
    {
      OffOnceNext(hs, i, minID, maxID);
      if arr[i].id > maxID || arr[i].id < minID || !arr[i].once {
        arr[end] := arr[i];
        end := end + 1;
        kept := kept + [hs[i]];
      }
    }
    assert hs[..|hs|] == hs;
  }

  lemma WithoutIdNone(id: nat)
    ensures WithoutId([], id) == []
  {
  }

  lemma OffOnceNone(minID: nat, maxID: nat)
    ensures OffOnce([], minID, maxID) == []
  {
  }

  method Copy(hs: Handlers) returns (arr: array<Handler>)
    ensures fresh(arr) && arr[..] == hs
  {
    arr := new Handler[|hs|](i requires 0 <= i < |hs| => hs[i]);
  }
}
