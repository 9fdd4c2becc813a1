/**
 `dialAll` and `dialGroup` of client/node.go: dials in the background, a channel that closes
 with the first answer and one that closes when all have settled.
 */
module Dials {
  import opened Wrappers
  import opened Counting

  // A dial that succeeded still has to count itself, then signal, then settle.
  datatype Pc = Dialling | Answered | Counted | Signalled | Settled(ok: bool)

  datatype State = State(
    dials: map<nat, Pc>,
    connected: int,
    pending: int,        // the wait group
    once: bool,
    firsts: nat,         // how often `first` was closed
    dones: nat)          // how often `done` was closed

  datatype Action =
    | Connect(dial: nat, ok: bool)
    | Count(dial: nat)
    | Signal(dial: nat)
    | Settle(dial: nat)
    | Finish

  function Launched(n: nat): (dials: map<nat, Pc>)
    ensures forall d: nat :: d in dials <==> d < n
    ensures forall d :: d in dials ==> dials[d] == Dialling
    ensures |dials| == n
  {
    if n == 0 then map[]
    else
      var fewer := Launched(n - 1);
      assert n - 1 !in fewer;
      fewer[n - 1 := Dialling]
  }

  // With nobody to dial, `done` is closed on the spot.
  function Initial(n: nat): State {
    State(Launched(n), 0, n, false, 0, if n == 0 then 1 else 0)
  }

  predicate Enabled(s: State, a: Action) {
    match a
    case Connect(d, ok) => d in s.dials && s.dials[d] == Dialling
    case Count(d) => d in s.dials && s.dials[d] == Answered
    case Signal(d) => d in s.dials && s.dials[d] == Counted
    case Settle(d) => d in s.dials && s.dials[d] == Signalled
    case Finish => |s.dials| > 0 && s.pending == 0 && s.dones == 0
  }

  function After(s: State, a: Action): State
    requires Enabled(s, a)
  {
    match a
    case Connect(d, ok) =>
      if ok then s.(dials := s.dials[d := Answered])
      else s.(dials := s.dials[d := Settled(false)], pending := s.pending - 1)
    case Count(d) => s.(dials := s.dials[d := Counted], connected := s.connected + 1)
    case Signal(d) =>
      s.(dials := s.dials[d := Signalled], once := true, firsts := if s.once then s.firsts else s.firsts + 1)
    case Settle(d) => s.(dials := s.dials[d := Settled(true)], pending := s.pending - 1)
    case Finish => s.(dones := s.dones + 1)
  }

  // ---------------------------------------------------------------- invariant

  predicate Connected(pc: Pc) {
    pc == Counted || pc == Signalled || pc == Settled(true)
  }

  predicate Unsettled(pc: Pc) {
    !pc.Settled?
  }

  predicate Told(pc: Pc) {
    pc == Signalled || pc == Settled(true)
  }

  ghost predicate Inv(s: State) {
    && s.connected == Counting.Count(s.dials, Connected)
    && s.pending == Counting.Count(s.dials, Unsettled)
    && s.firsts == (if s.once then 1 else 0)
    && (s.once ==> s.connected >= 1)
    && (forall d :: d in s.dials && Told(s.dials[d]) ==> s.once)
    && s.dones <= 1
    && (s.dones == 1 ==> s.pending == 0)
    && (|s.dials| == 0 ==> s.dones == 1)
  }

  // A dial moves itself alone, and the counters with it.
  lemma DialMoves(s: State, a: Action)
    requires Enabled(s, a) && !a.Finish?
    ensures var t, d := After(s, a), a.dial;
      && d in s.dials && d in t.dials && t.dials == s.dials[d := t.dials[d]]
      && t.connected == s.connected + One(Connected(t.dials[d])) - One(Connected(s.dials[d]))
      && t.pending == s.pending + One(Unsettled(t.dials[d])) - One(Unsettled(s.dials[d]))
      && Unsettled(s.dials[d]) && t.dones == s.dones
      && (t.once <==> s.once || a.Signal?)
      && (a.Signal? ==> Connected(s.dials[d]))
      && (Told(t.dials[d]) ==> Told(s.dials[d]) || a.Signal?)
      && t.firsts == s.firsts + One(t.once && !s.once)
  {
  }

  lemma StepKeepsInv(s: State, a: Action)
    requires Inv(s) && Enabled(s, a)
    ensures Inv(After(s, a))
  {
    if !a.Finish? {
      var d, pc := a.dial, After(s, a).dials[a.dial];
      DialMoves(s, a);
      CountUpdate(s.dials, d, pc, Connected);
      CountUpdate(s.dials, d, pc, Unsettled);
      CountAtLeastOne(s.dials, d, Unsettled);
      if Connected(s.dials[d]) {
        CountAtLeastOne(s.dials, d, Connected);
      }
      hide After, Enabled, Connected, Unsettled, Told, Counting.Count;
      assert s.dials[d := pc].Keys == s.dials.Keys;
      assert |s.dials[d := pc].Keys| == |s.dials.Keys|;
    }
  }

  // ---------------------------------------------------------------- whole runs

  function Replay(n: nat, acts: seq<Action>): Option<State> {
    if acts == [] then Some(Initial(n))
    else
      var before := Replay(n, acts[..|acts| - 1]);
      var last := acts[|acts| - 1];
      if before.Some? && Enabled(before.value, last) then Some(After(before.value, last)) else None
  }

  ghost predicate Reachable(n: nat, s: State) {
    exists acts :: Replay(n, acts) == Some(s)
  }

  lemma InitialInv(n: nat)
    ensures Inv(Initial(n))
  {
    var dials := Launched(n);
    assert Those(dials, Connected) == {};
    assert Those(dials, Unsettled) == dials.Keys;
    assert |dials.Keys| == |dials|;
  }

  lemma {:induction false} RunsKeepInv(n: nat, acts: seq<Action>)
    ensures Replay(n, acts).Some? ==> Inv(Replay(n, acts).value)
  {
    if acts == [] {
      InitialInv(n);
    } else {
      RunsKeepInv(n, acts[..|acts| - 1]);
      if Replay(n, acts).Some? {
        StepKeepsInv(Replay(n, acts[..|acts| - 1]).value, acts[|acts| - 1]);
      }
    }
  }

  lemma ReachableInv(n: nat, s: State)
    requires Reachable(n, s)
    ensures Inv(s)
  {
    var acts :| Replay(n, acts) == Some(s);
    RunsKeepInv(n, acts);
  }

  // ---------------------------------------------------------------- what the channels say

  predicate Succeeded(pc: Pc) {
    pc == Settled(true)
  }

  // `first` closes at most once, and only with somebody connected; `done` closes at most once,
  // and only with every dial settled. From then on the count is the number of successes, and
  // `first` is closed exactly when that is positive.
  lemma ChannelsAreHonest(n: nat, s: State)
    requires Reachable(n, s)
    ensures s.firsts <= 1 && (s.firsts == 1 ==> s.connected >= 1)
    ensures s.dones <= 1
    ensures s.dones == 1 ==>
      && (forall d :: d in s.dials ==> s.dials[d].Settled?)
      && s.connected == Counting.Count(s.dials, Succeeded)
      && (s.firsts == 1 <==> s.connected > 0)
  {
    ReachableInv(n, s);
    if s.dones == 1 {
      forall d | d in s.dials ensures s.dials[d].Settled? {
        if Unsettled(s.dials[d]) {
          CountAtLeastOne(s.dials, d, Unsettled);
        }
      }
      assert Those(s.dials, Connected) == Those(s.dials, Succeeded);
      if s.connected > 0 {
        assert Those(s.dials, Succeeded) != {};
        var d :| d in Those(s.dials, Succeeded);
        assert Told(s.dials[d]);
      }
    }
  }

  // Until `done` is closed somebody has a step to take.
  lemma AlwaysGoesOn(n: nat, s: State)
    requires Reachable(n, s) && s.dones == 0
    ensures exists a :: Enabled(s, a)
  {
    ReachableInv(n, s);
    SomebodyMoves(s);
  }

  // No dial waits for another, and each may end either way.
  lemma NoDialIsHeldUp(s: State, d: nat, ok: bool)
    requires d in s.dials
    ensures match s.dials[d]
      case Dialling =>
        Enabled(s, Connect(d, ok)) && After(s, Connect(d, ok)).dials[d] == if ok then Answered else Settled(false)
      case Answered => Enabled(s, Count(d)) && After(s, Count(d)).connected == s.connected + 1
      case Counted => Enabled(s, Signal(d)) && After(s, Signal(d)).firsts >= 1 - (if s.once then 1 else 0)
      case Signalled => Enabled(s, Settle(d)) && After(s, Settle(d)).dials[d] == Settled(true)
      case Settled(_) => true
  {
  }

  // And every step is one of at most four that a dial ever takes, or the last of all.
  lemma EveryStepCounts(s: State, a: Action)
    requires Enabled(s, a)
    ensures StepsLeft(After(s, a)) < StepsLeft(s)
  {
    if !a.Finish? {
      var pc := After(s, a).dials[a.dial];
      CountUpdate(s.dials, a.dial, pc, pc => pc == Dialling);
      CountUpdate(s.dials, a.dial, pc, pc => pc == Answered);
      CountUpdate(s.dials, a.dial, pc, pc => pc == Counted);
      CountUpdate(s.dials, a.dial, pc, pc => pc == Signalled);
    }
  }

  ghost function StepsLeft(s: State): int {
    4 * Counting.Count(s.dials, pc => pc == Dialling) + 3 * Counting.Count(s.dials, pc => pc == Answered)
    + 2 * Counting.Count(s.dials, pc => pc == Counted) + Counting.Count(s.dials, pc => pc == Signalled)
    + 1 - s.dones
  }

  // ---------------------------------------------------------------- the start-up verdict

  // Once `done` is closed the count is final, so a verdict that read `done` before the count
  // would be right.
  lemma CountIsFinalOnceDone(n: nat, s: State, a: Action)
    requires Reachable(n, s) && s.dones == 1
    ensures !Enabled(s, a)
  {
    ChannelsAreHonest(n, s);
  }

  // Where a sequence of actions leads on from a state.
  function Onwards(s: State, acts: seq<Action>): Option<State>
    decreases |acts|
  {
    if acts == [] then Some(s)
    else if Enabled(s, acts[0]) then Onwards(After(s, acts[0]), acts[1..])
    else None
  }

  // The count stays zero in every continuation in which the group finishes.
  ghost predicate VerdictHolds(s: State) {
    forall acts :: Onwards(s, acts).Some? && Onwards(s, acts).value.dones == 1 ==>
      Onwards(s, acts).value.connected == 0
  }

  predicate AllFailed(s: State) {
    forall d :: d in s.dials ==> s.dials[d] == Settled(false)
  }

  lemma {:induction false} FailedStaysFailed(s: State, acts: seq<Action>)
    requires AllFailed(s) && Onwards(s, acts).Some?
    ensures Onwards(s, acts).value.connected == s.connected
    decreases |acts|
  {
    if acts != [] {
      assert acts[0] == Finish;
      FailedStaysFailed(After(s, acts[0]), acts[1..]);
    }
  }

  lemma StepsAreFinite(s: State)
    requires s.dones <= 1
    ensures StepsLeft(s) >= 0
  {
  }

  lemma SomebodyMoves(s: State)
    requires Inv(s) && s.dones == 0
    ensures exists a :: Enabled(s, a)
  {
    if d :| d in s.dials && Unsettled(s.dials[d]) {
      assert Enabled(s, Connect(d, true)) || Enabled(s, Count(d)) || Enabled(s, Signal(d)) || Enabled(s, Settle(d));
    } else {
      assert Those(s.dials, Unsettled) == {};
      assert Enabled(s, Finish);
    }
  }

  // Whatever happens the group can be brought to finish, and the count never goes back.
  lemma {:induction false} FinishFrom(s: State) returns (acts: seq<Action>)
    requires Inv(s)
    ensures Onwards(s, acts).Some?
    ensures Onwards(s, acts).value.dones == 1 && Onwards(s, acts).value.connected >= s.connected
    decreases StepsLeft(s) + 1
  {
    StepsAreFinite(s);
    if s.dones == 1 {
      acts := [];
    } else {
      SomebodyMoves(s);
      var a :| Enabled(s, a);
      StepKeepsInv(s, a);
      EveryStepCounts(s, a);
      StepsAreFinite(After(s, a));
      var more := FinishFrom(After(s, a));
      acts := Before(s, a, more);
    }
  }

  lemma Before(s: State, a: Action, more: seq<Action>) returns (acts: seq<Action>)
    requires Enabled(s, a) && Onwards(After(s, a), more).Some?
    ensures Onwards(s, acts) == Onwards(After(s, a), more)
  {
    acts := [a] + more;
    assert acts[0] == a && acts[1..] == more;
  }

  // A dial that has not failed can still be counted before the group finishes.
  lemma StillCounts(s: State, d: nat) returns (acts: seq<Action>)
    requires Inv(s) && d in s.dials && (s.dials[d] == Dialling || s.dials[d] == Answered)
    requires s.connected >= 0
    ensures Onwards(s, acts).Some?
    ensures Onwards(s, acts).value.dones == 1 && Onwards(s, acts).value.connected > 0
    decreases s.dials[d] == Dialling
  {
    if s.dials[d] == Dialling {
      StepKeepsInv(s, Connect(d, true));
      var more := StillCounts(After(s, Connect(d, true)), d);
      acts := Before(s, Connect(d, true), more);
    } else {
      StepKeepsInv(s, Count(d));
      var more := FinishFrom(After(s, Count(d)));
      acts := Before(s, Count(d), more);
    }
  }

  // `startNode` reads the count first, and then whether the group has finished. A count of
  // zero is sure to be the final one exactly when every dial has failed by then. For any group
  // with a dial outstanding it can be overtaken: somebody connects, the group finishes, and the
  // verdict is still that nobody could be reached.
  lemma WhenTheVerdictIsRight(n: nat, s: State)
    requires Reachable(n, s) && s.connected == 0
    ensures VerdictHolds(s) <==> AllFailed(s)
  {
    ReachableInv(n, s);
    if AllFailed(s) {
      forall acts | Onwards(s, acts).Some? ensures Onwards(s, acts).value.connected == 0 {
        FailedStaysFailed(s, acts);
      }
    } else {
      var d :| d in s.dials && s.dials[d] != Settled(false);
      if Connected(s.dials[d]) {
        CountAtLeastOne(s.dials, d, Connected);
      }
      var acts := StillCounts(s, d);
      assert !VerdictHolds(s);
    }
  }

  // So it is for every group there is to dial, before any of its dials has landed.
  lemma VerdictCanMissAConnection(n: nat)
    ensures Initial(n).connected == 0
    ensures n > 0 <==> exists acts ::
      Onwards(Initial(n), acts).Some? && Onwards(Initial(n), acts).value.dones == 1 && Onwards(Initial(n), acts).value.connected > 0
  {
    InitialInv(n);
    if n > 0 {
      assert Initial(n).dials[0] == Dialling;
      var acts := StillCounts(Initial(n), 0);
    } else {
      forall acts | Onwards(Initial(n), acts).Some? ensures Onwards(Initial(n), acts).value.connected == 0 {
        FailedStaysFailed(Initial(n), acts);
      }
    }
  }

  // ---------------------------------------------------------------- the two groups together

  // The dials of gateways and of peers, side by side.
  datatype Both = Both(gateways: State, peers: State)

  datatype Side = OfGateways(action: Action) | OfPeers(action: Action)

  predicate BothEnabled(b: Both, a: Side) {
    Enabled(if a.OfGateways? then b.gateways else b.peers, a.action)
  }

  function BothAfter(b: Both, a: Side): Both
    requires BothEnabled(b, a)
  {
    if a.OfGateways? then b.(gateways := After(b.gateways, a.action)) else b.(peers := After(b.peers, a.action))
  }

  function BothOnwards(b: Both, acts: seq<Side>): Option<Both>
    decreases |acts|
  {
    if acts == [] then Some(b)
    else if BothEnabled(b, acts[0]) then BothOnwards(BothAfter(b, acts[0]), acts[1..])
    else None
  }

  predicate NobodyReached(b: Both) {
    b.gateways.connected == 0 && b.peers.connected == 0
  }

  // In every interleaving of what is left, both groups finish with nobody connected.
  ghost predicate BothVerdictsHold(b: Both) {
    forall acts ::
      BothOnwards(b, acts).Some? && BothOnwards(b, acts).value.gateways.dones == 1 && BothOnwards(b, acts).value.peers.dones == 1 ==>
        NobodyReached(BothOnwards(b, acts).value)
  }

  // Failed groups gain nobody, however they interleave.
  lemma {:induction false} BothStayFailed(b: Both, acts: seq<Side>)
    requires AllFailed(b.gateways) && AllFailed(b.peers) && BothOnwards(b, acts).Some?
    ensures BothOnwards(b, acts).value.gateways.connected == b.gateways.connected
    ensures BothOnwards(b, acts).value.peers.connected == b.peers.connected
    decreases |acts|
  {
    if acts != [] {
      assert acts[0].action == Finish;
      BothStayFailed(BothAfter(b, acts[0]), acts[1..]);
    }
  }

  // What each group can do alone they can do one after the other.
  lemma {:induction false} OneAfterTheOther(b: Both, g: seq<Action>, p: seq<Action>) returns (acts: seq<Side>)
    requires Onwards(b.gateways, g).Some? && Onwards(b.peers, p).Some?
    ensures BothOnwards(b, acts) == Some(Both(Onwards(b.gateways, g).value, Onwards(b.peers, p).value))
    decreases |g| + |p|
  {
    if g != [] {
      var more := OneAfterTheOther(b.(gateways := After(b.gateways, g[0])), g[1..], p);
      acts := [OfGateways(g[0])] + more;
      assert acts[0] == OfGateways(g[0]) && acts[1..] == more;
    } else if p != [] {
      var more := OneAfterTheOther(b.(peers := After(b.peers, p[0])), g, p[1..]);
      acts := [OfPeers(p[0])] + more;
      assert acts[0] == OfPeers(p[0]) && acts[1..] == more;
    } else {
      acts := [];
    }
  }

  // A group that has not failed for good can finish with somebody connected.
  lemma CanConnect(n: nat, s: State) returns (acts: seq<Action>)
    requires Reachable(n, s) && !AllFailed(s)
    ensures Onwards(s, acts).Some? && Onwards(s, acts).value.dones == 1 && Onwards(s, acts).value.connected > 0
  {
    ReachableInv(n, s);
    var d :| d in s.dials && s.dials[d] != Settled(false);
    if Connected(s.dials[d]) {
      CountAtLeastOne(s.dials, d, Connected);
      acts := FinishFrom(s);
    } else {
      acts := StillCounts(s, d);
    }
  }

  lemma FailedConnectNobody(n: nat, s: State)
    requires Reachable(n, s) && AllFailed(s)
    ensures s.connected == 0
  {
    ReachableInv(n, s);
    assert Those(s.dials, Connected) == {};
  }

  // `startNode` reads the count of gateways, then that of peers, and then asks either group
  // whether it has finished. That nobody could be reached is sure exactly when every gateway and
  // every peer had failed when it read the second count: a gateway that has landed since the
  // first is missed as well.
  lemma WhenTheStartUpVerdictIsRight(n: nat, m: nat, b: Both)
    requires Reachable(n, b.gateways) && Reachable(m, b.peers)
    ensures BothVerdictsHold(b) <==> AllFailed(b.gateways) && AllFailed(b.peers)
  {
    ReachableInv(n, b.gateways);
    ReachableInv(m, b.peers);
    if AllFailed(b.gateways) && AllFailed(b.peers) {
      FailedConnectNobody(n, b.gateways);
      FailedConnectNobody(m, b.peers);
      forall acts | BothOnwards(b, acts).Some? ensures NobodyReached(BothOnwards(b, acts).value) {
        BothStayFailed(b, acts);
      }
    } else {
      var g, p;
      if AllFailed(b.gateways) {
        g := FinishFrom(b.gateways);
        p := CanConnect(m, b.peers);
      } else {
        g := CanConnect(n, b.gateways);
        p := FinishFrom(b.peers);
      }
      var acts := OneAfterTheOther(b, g, p);
      assert !BothVerdictsHold(b);
    }
  }
}
