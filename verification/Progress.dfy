/**
 That `replace` of client/output.go gets somewhere: without new calls and without contexts ending
 every run is bounded, and nothing stops before everyone is done.
 */
module Progress {
  import opened Wrappers
  import opened Counting
  import opened Paths
  import opened Renaming
  import opened Publishing
  import PathLocks

  // ---------------------------------------------------------------- every run ends

  function Weight(pc: Pc): nat {
    match pc
    case Starting => 8
    case FirstTry => 7
    case Queueing => 6
    case SecondTry => 5
    case Clearing => 4
    case ThirdTry(_) => 3
    case Unlocking(_) => 2
    case Dropping(_) => 1
    case Finished(_) => 0
  }

  ghost function CallWork(calls: map<Call, Pc>): nat {
    EarlyWork(calls) + LateWork(calls)
  }

  ghost function EarlyWork(calls: map<Call, Pc>): nat {
    8 * Count(calls, pc => pc == Starting) + 7 * Count(calls, pc => pc == FirstTry)
    + 6 * Count(calls, pc => pc == Queueing) + 5 * Count(calls, pc => pc == SecondTry)
  }

  ghost function LateWork(calls: map<Call, Pc>): nat {
    4 * Count(calls, pc => pc == Clearing) + 3 * Count(calls, (pc: Pc) => pc.ThirdTry?)
    + 2 * Count(calls, (pc: Pc) => pc.Unlocking?) + Count(calls, (pc: Pc) => pc.Dropping?)
  }

  predicate Early(pc: Pc) {
    pc == Starting || pc == FirstTry || pc == Queueing || pc == SecondTry
  }

  lemma EarlyWorkUpdate(calls: map<Call, Pc>, c: Call, pc: Pc)
    requires c in calls
    ensures EarlyWork(calls[c := pc]) == EarlyWork(calls)
      + (if Early(pc) then Weight(pc) else 0) - (if Early(calls[c]) then Weight(calls[c]) else 0)
  {
    CountUpdate(calls, c, pc, pc => pc == Starting);
    CountUpdate(calls, c, pc, pc => pc == FirstTry);
    CountUpdate(calls, c, pc, pc => pc == Queueing);
    CountUpdate(calls, c, pc, pc => pc == SecondTry);
    hide Count;
  }

  lemma LateWorkUpdate(calls: map<Call, Pc>, c: Call, pc: Pc)
    requires c in calls
    ensures LateWork(calls[c := pc]) == LateWork(calls)
      + (if Early(pc) then 0 else Weight(pc)) - (if Early(calls[c]) then 0 else Weight(calls[c]))
  {
    CountUpdate(calls, c, pc, pc => pc == Clearing);
    CountUpdate(calls, c, pc, (pc: Pc) => pc.ThirdTry?);
    CountUpdate(calls, c, pc, (pc: Pc) => pc.Unlocking?);
    CountUpdate(calls, c, pc, (pc: Pc) => pc.Dropping?);
    hide Count;
  }

  lemma CallWorkUpdate(calls: map<Call, Pc>, c: Call, pc: Pc)
    requires c in calls
    ensures CallWork(calls[c := pc]) == CallWork(calls) + Weight(pc) - Weight(calls[c])
  {
    EarlyWorkUpdate(calls, c, pc);
    LateWorkUpdate(calls, c, pc);
    hide EarlyWork, LateWork, Weight;
  }

  ghost function Unregistered(s: State): set<Call> {
    s.calls.Keys - s.locks.calls.Keys
  }

  // A bound on the steps left to the calls there are, those on other paths included.
  ghost function StepsLeft(s: State): nat {
    CallWork(s.calls) + PathLocks.StepsLeft(s.locks.calls) + 5 * |Unregistered(s)|
  }

  // What comes from outside: new calls, and contexts that end.
  predicate Arrival(a: Action) {
    a.Arrive? || a.Deadline? || (a.Foreign? && PathLocks.Arrival(a.step))
  }

  // A call's own step moves it to a place of less weight, and nobody else.
  lemma OwnStepMoves(s: State, a: Action)
    requires Enabled(s, a) && (a.Check? || a.Rename? || a.Clear?)
    ensures var t := After(s, a);
      && t.locks == s.locks && a.call in s.calls && a.call in t.calls && t.calls == s.calls[a.call := t.calls[a.call]]
      && Weight(t.calls[a.call]) < Weight(s.calls[a.call])
      && Unregistered(t) == Unregistered(s)
  {
    assert After(s, a).calls.Keys == s.calls.Keys;
  }

  lemma OwnStepCounts(s: State, a: Action)
    requires Enabled(s, a) && (a.Check? || a.Rename? || a.Clear?)
    ensures StepsLeft(After(s, a)) < StepsLeft(s)
  {
    OwnStepMoves(s, a);
    hide CallWork, PathLocks.StepsLeft, After, Enabled, Unregistered, Weight;
    CallWorkUpdate(s.calls, a.call, After(s, a).calls[a.call]);
  }

  lemma LockStepMoves(s: State, a: Action)
    requires Enabled(s, a) && a.Lock?
    ensures var t, c := After(s, a), a.call;
      && c in s.calls && c in t.calls && t.calls == s.calls[c := t.calls[c]]
      && t.locks == PathLocks.After(s.locks, a.step) && PathLocks.Enabled(s.locks, a.step) && !a.step.Deadline?
      && (a.step.Register? ==> t.calls[c] == s.calls[c] && Unregistered(t) == Unregistered(s) - {c} && c in Unregistered(s))
      && (!a.step.Register? ==> Weight(t.calls[c]) <= Weight(s.calls[c]) && Unregistered(t) == Unregistered(s))
  {
    PathLocks.OnlyTheCallerMoves(s.locks, a.step);
    assert a.step.Register? ==> a.call !in s.locks.calls;
    assert After(s, a).calls.Keys == s.calls.Keys;
    hide PathLocks.After;
  }

  lemma LockStepCounts(s: State, a: Action)
    requires Enabled(s, a) && a.Lock?
    ensures StepsLeft(After(s, a)) < StepsLeft(s)
  {
    LockStepMoves(s, a);
    hide CallWork, PathLocks.StepsLeft, PathLocks.After, PathLocks.Enabled, After, Enabled, Unregistered, Weight;
    PathLocks.EveryStepCounts(s.locks, a.step);
    CallWorkUpdate(s.calls, a.call, After(s, a).calls[a.call]);
  }

  lemma ForeignStepMoves(s: State, a: Action)
    requires Enabled(s, a) && a.Foreign?
    ensures var t := After(s, a);
      && t.calls == s.calls && Unregistered(t) == Unregistered(s)
      && PathLocks.Enabled(s.locks, a.step) && t.locks == PathLocks.After(s.locks, a.step)
  {
    PathLocks.OnlyTheCallerMoves(s.locks, a.step);
    hide PathLocks.After;
  }

  lemma ForeignStepCounts(s: State, a: Action)
    requires Enabled(s, a) && a.Foreign? && !PathLocks.Arrival(a.step)
    ensures StepsLeft(After(s, a)) < StepsLeft(s)
  {
    ForeignStepMoves(s, a);
    hide CallWork, PathLocks.StepsLeft, PathLocks.After, PathLocks.Enabled, After, Enabled, Unregistered;
    PathLocks.EveryStepCounts(s.locks, a.step);
  }

  // Every step but an arrival brings the calls there are nearer to their ends.
  lemma EveryStepCounts(s: State, a: Action)
    requires Enabled(s, a) && !Arrival(a)
    ensures StepsLeft(After(s, a)) < StepsLeft(s)
  {
    if a.Lock? {
      LockStepCounts(s, a);
    } else if a.Foreign? {
      ForeignStepCounts(s, a);
    } else {
      OwnStepCounts(s, a);
    }
  }

  // Where a sequence of actions leads on from a state.
  function Onwards(s: State, acts: seq<Action>): Option<State>
    decreases |acts|
  {
    if acts == [] then Some(s)
    else if Enabled(s, acts[0]) then Onwards(After(s, acts[0]), acts[1..])
    else None
  }

  // So without arrivals a run goes on for at most `StepsLeft` steps.
  lemma {:induction false} RunsAreBounded(s: State, acts: seq<Action>)
    requires Onwards(s, acts).Some? && forall a :: a in acts ==> !Arrival(a)
    ensures |acts| + StepsLeft(Onwards(s, acts).value) <= StepsLeft(s)
    decreases |acts|
  {
    hide StepsLeft;
    if acts != [] {
      assert acts[0] in acts;
      EveryStepCounts(s, acts[0]);
      RunsAreBounded(After(s, acts[0]), acts[1..]);
    }
  }

  lemma WhereHoldersAre(s: State, d: Call)
    requires Ours(s, d) && LockedAs(s, d) && PathLocks.HasLock(s.locks, d)
    ensures s.locks.calls[d].Parked? ==> s.calls[d] == Queueing
    ensures s.locks.calls[d].Holding? ==> PastTheLock(s.calls[d])
  {
  }

  lemma WorkersMove(s: State, d: Call) returns (a: Action)
    requires Ours(s, d) && (s.calls[d] == Clearing || s.calls[d] == SecondTry || s.calls[d].ThirdTry?)
    ensures Enabled(s, a) && !Arrival(a) && WayOf(s, a, d)
  {
    a := if s.calls[d] == Clearing then Clear(d) else Rename(d, MayRename(s.staged[d], s.output));
  }

  lemma LockersMove(s: State, d: Call, step: PathLocks.Action) returns (a: Action)
    requires PathLocks.Enabled(s.locks, step) && step.call == d
    requires (step.Wake? && (d in s.calls ==> Ours(s, d) && s.calls[d] == Queueing))
      || (step.Unlock? && (d in s.calls ==> Ours(s, d) && s.calls[d].Unlocking?))
    ensures Enabled(s, a) && !Arrival(a) && WayOf(s, a, d)
  {
    hide PathLocks.Enabled, Clean;
    a := if d in s.calls then Lock(d, step) else Foreign(step);
  }

  // The next step of whoever has a lock, whoever it is.
  lemma HolderMoves(s: State, d: Call) returns (a: Action)
    requires Reachable(s) && PathLocks.HasLock(s.locks, d)
    ensures Enabled(s, a) && !Arrival(a) && WayOf(s, a, d)
  {
    ReachableInv(s);
    var step := PathLocks.HolderMoves(s.locks, d);
    if d in s.calls {
      assert Ours(s, d) && LockedAs(s, d);
      WhereHoldersAre(s, d);
    }
    assert step.Wake? <==> s.locks.calls[d].Parked?;
    hide Inv, PathLocks.Enabled, Enabled, Arrival, WayOf;
    if d in s.calls && (s.calls[d] == Clearing || s.calls[d] == SecondTry || s.calls[d].ThirdTry?) {
      a := WorkersMove(s, d);
    } else {
      a := LockersMove(s, d, step);
    }
  }

  // A step of `d` on its way to giving its lock back.
  predicate WayOf(s: State, a: Action, d: Call) {
    match a
    case Rename(c, _) => c == d && c in s.calls && s.calls[c] != FirstTry
    case Clear(c) => c == d
    case Lock(c, step) => c == d && (step.Unlock? || step.Wake?)
    case Foreign(step) => step.call == d && d !in s.calls && (step.Unlock? || step.Wake?)
    case _ => false
  }

  lemma QueueStepIsEnabled(s: State, c: Call, step: PathLocks.Action)
    requires Ours(s, c) && s.calls[c] == Queueing && PathLocks.Enabled(s.locks, step) && step.call == c
    requires step.Drop? || step.Grant? || step.Wake? || step.Expire? || (step.Register? && Clean(step.path) == s.keyOf[c])
    ensures Enabled(s, Lock(c, step))
  {
    hide PathLocks.Enabled, Clean;
  }

  // A call in the queue can move, or whoever has its lock can.
  lemma QueueMoves(s: State, c: Call) returns (a: Action)
    requires Reachable(s) && c in s.calls && s.calls[c] == Queueing
    ensures Enabled(s, a) && !Arrival(a)
  {
    ReachableInv(s);
    assert LockedAs(s, c) && Ours(s, c);
    var step := PathLocks.Register(c, s.keyOf[c]);
    if c !in s.locks.calls {
      assert Clean(s.keyOf[c]) == s.keyOf[c];
    } else {
      var pc := s.locks.calls[c];
      if pc.GivingUp? {
        step := PathLocks.Drop(c);
      } else if pc.gate in s.locks.tokens {
        a := HolderMoves(s, s.locks.tokens[pc.gate]);
        return;
      } else if pc.Selecting? {
        step := PathLocks.Grant(c);
      } else {
        assert !PathLocks.InLine(s.locks, c, pc.gate);
        step := PathLocks.Expire(c);
      }
    }
    assert PathLocks.Enabled(s.locks, step);
    hide Inv, Enabled, PathLocks.Enabled;
    QueueStepIsEnabled(s, c, step);
    a := Lock(c, step);
  }

  lemma DropIsEnabled(s: State, c: Call)
    requires Ours(s, c) && s.calls[c].Dropping? && PathLocks.Enabled(s.locks, PathLocks.Drop(c))
    ensures Enabled(s, Lock(c, PathLocks.Drop(c)))
  {
    hide PathLocks.Enabled, Clean;
  }

  lemma DroppersMove(s: State, c: Call)
    requires Ours(s, c) && LockedAs(s, c) && s.calls[c].Dropping?
    ensures Enabled(s, Lock(c, PathLocks.Drop(c)))
  {
    hide Enabled;
    DropIsEnabled(s, c);
  }

  lemma OursMoves(s: State, c: Call) returns (a: Action)
    requires Reachable(s) && c in s.calls && !s.calls[c].Finished?
    ensures Enabled(s, a) && !Arrival(a)
  {
    ReachableInv(s);
    assert LockedAs(s, c) && Ours(s, c);
    if s.calls[c] == Starting {
      a := Check(c);
    } else if s.calls[c] == FirstTry {
      a := Rename(c, MayRename(s.staged[c], s.output));
    } else if s.calls[c] == Queueing {
      hide Enabled;
      a := QueueMoves(s, c);
    } else if s.calls[c].Dropping? {
      hide Enabled, Inv;
      DroppersMove(s, c);
      a := Lock(c, PathLocks.Drop(c));
    } else {
      hide Enabled;
      a := HolderMoves(s, c);
    }
  }

  lemma FinishedAreGone(s: State, c: Call)
    requires c in s.calls && c in s.keyOf && LockedAs(s, c) && s.calls[c].Finished?
    ensures c in s.locks.calls ==> s.locks.calls[c].Gone?
  {
  }

  lemma ForeignersMove(s: State, step: PathLocks.Action)
    requires PathLocks.Enabled(s.locks, step) && step.call !in s.calls && !PathLocks.Arrival(step)
    ensures Enabled(s, Foreign(step)) && !Arrival(Foreign(step))
  {
    hide PathLocks.Enabled;
  }

  lemma OthersMove(s: State, c: Call) returns (a: Action)
    requires Reachable(s) && c in s.locks.calls && !s.locks.calls[c].Gone?
    ensures Enabled(s, a) && !Arrival(a)
  {
    ReachableInv(s);
    var step := PathLocks.SomebodyMoves(s.locks, c);
    hide Enabled, PathLocks.Enabled, PathLocks.After, LockedAs;
    assert step.call in s.calls ==> step.call in s.keyOf && LockedAs(s, step.call);
    hide Inv;
    if step.call in s.calls {
      PathLocks.OnlyTheCallerMoves(s.locks, step);
      if s.calls[step.call].Finished? {
        FinishedAreGone(s, step.call);
      }
      a := OursMoves(s, step.call);
    } else {
      ForeignersMove(s, step);
      a := Foreign(step);
    }
  }

  // Nothing is ever stuck: short of every call being over and every lock given back there is a
  // step to take that needs no arrival and no context to end.
  lemma StuckMeansOver(s: State)
    requires Reachable(s)
    requires forall a :: Enabled(s, a) ==> Arrival(a)
    ensures forall c :: c in s.calls ==> s.calls[c].Finished?
    ensures forall c :: c in s.locks.calls ==> s.locks.calls[c].Gone?
  {
    ReachableInv(s);
    hide Reachable, Inv;
    forall c | c in s.calls ensures s.calls[c].Finished? {
      if !s.calls[c].Finished? {
        var a := OursMoves(s, c);
      }
    }
    forall c | c in s.locks.calls ensures s.locks.calls[c].Gone? {
      if !s.locks.calls[c].Gone? {
        var a := OthersMove(s, c);
      }
    }
  }
}
