/**
 What a deadline does to a `replace` call of client/output.go: who was let in before it, and
 who can still publish after it. The context is looked at on entry and in the `select` of the
 wait for the lock, and nowhere else.
 */
module Deadlines {
  import opened Wrappers
  import opened Paths
  import opened Renaming
  import opened Publishing
  import opened Progress
  import PathLocks

  // ---------------------------------------------------------------- who was let in

  // The call's check came before any deadline of its own.
  ghost predicate CheckedInTime(acts: seq<Action>, c: Call) {
    exists i :: 0 <= i < |acts| && acts[i] == Check(c) && Deadline(c) !in acts[..i]
  }

  // Calls of ours, and those nobody has heard of.
  predicate NotForeign(s: State, c: Call) {
    c in s.calls || c !in s.locks.calls
  }

  lemma DoneStep(s: State, a: Action, c: Call)
    requires Enabled(s, a) && NotForeign(After(s, a), c)
    ensures NotForeign(s, c)
    ensures c in After(s, a).locks.done <==> c in s.locks.done || a == Deadline(c)
  {
    LocksFollow(s, a);
    if LockAction(a).Some? {
      PathLocks.OnlyTheCallerMoves(s.locks, LockAction(a).value);
    }
    hide PathLocks.Enabled, PathLocks.After, Clean, MayRename, MayFail;
  }

  lemma {:induction false} DoneMeansDeadline(paths: set<string>, initial: Entry, acts: seq<Action>, c: Call)
    requires Replay(paths, initial, acts).Some? && NotForeign(Replay(paths, initial, acts).value, c)
    ensures c in Replay(paths, initial, acts).value.locks.done <==> Deadline(c) in acts
  {
    if acts != [] {
      var init, last := acts[..|acts| - 1], acts[|acts| - 1];
      DoneStep(Replay(paths, initial, init).value, last, c);
      DoneMeansDeadline(paths, initial, init, c);
      assert acts == init + [last];
    }
  }

  // Past the check, and not turned away there: a call that gives up waiting for the lock has
  // been in the lock table.
  predicate LetIn(s: State, c: Call) {
    c in s.calls && s.calls[c] != Starting && (s.calls[c] == Finished(GaveUp) ==> c in s.locks.calls)
  }

  lemma OwnLetInStep(s: State, a: Action, c: Call)
    requires Enabled(s, a) && LockAction(a).None? && (c in s.calls ==> c in s.keyOf && LockedAs(s, c))
    ensures LetIn(After(s, a), c) <==> LetIn(s, c) || (a == Check(c) && c !in s.locks.done)
    ensures a == Check(c) ==> !LetIn(s, c)
  {
    hide Clean, MayRename, MayFail;
  }

  lemma LockLetInStep(s: State, a: Action, c: Call)
    requires Enabled(s, a) && LockAction(a).Some? && (c in s.calls ==> c in s.keyOf && LockedAs(s, c))
    ensures LetIn(After(s, a), c) <==> LetIn(s, c)
  {
    PathLocks.OnlyTheCallerMoves(s.locks, LockAction(a).value);
    hide PathLocks.Enabled, PathLocks.After;
  }

  lemma LetInStep(s: State, a: Action, c: Call)
    requires LockInv(s) && Enabled(s, a)
    ensures LetIn(After(s, a), c) <==> LetIn(s, c) || (a == Check(c) && c !in s.locks.done)
    ensures a == Check(c) ==> !LetIn(s, c) && c in s.calls
  {
    assert c in s.calls ==> c in s.keyOf && LockedAs(s, c);
    assert a == Check(c) ==> c in s.calls;
    hide After, Enabled, Inv, LetIn, LockedAs;
    if LockAction(a).Some? {
      LockLetInStep(s, a, c);
    } else {
      OwnLetInStep(s, a, c);
    }
  }

  lemma PublishersAreLetIn(s: State, c: Call)
    requires PubInv(s) && c in s.pubs
    ensures LetIn(s, c)
  {
    assert Ended(s.calls[c], Published);
  }

  // Over every run the calls let in are exactly those whose check came before their deadline,
  // and every call that publishes is one of them.
  lemma {:induction false} LetInMeansInTime(paths: set<string>, initial: Entry, acts: seq<Action>, s: State, c: Call)
    requires Replay(paths, initial, acts) == Some(s)
    ensures LetIn(s, c) <==> CheckedInTime(acts, c)
    ensures c in s.pubs ==> CheckedInTime(acts, c)
  {
    RunsKeepInv(paths, initial, acts);
    if c in s.pubs {
      PublishersAreLetIn(s, c);
    }
    if acts != [] {
      var init, last := acts[..|acts| - 1], acts[|acts| - 1];
      var before := Replay(paths, initial, init).value;
      hide Inv, Enabled, After;
      RunsKeepInv(paths, initial, init);
      hide CheckedInTime, LetIn;
      LetInMeansInTime(paths, initial, init, before, c);
      OneMoreAction(acts, c);
      LetInStep(before, last, c);
      if last == Check(c) {
        DoneMeansDeadline(paths, initial, init, c);
      }
    }
  }

  lemma OneMoreAction(acts: seq<Action>, c: Call)
    requires acts != []
    ensures var init, last := acts[..|acts| - 1], acts[|acts| - 1];
      CheckedInTime(acts, c) <==> CheckedInTime(init, c) || (last == Check(c) && Deadline(c) !in init)
  {
    var init, last := acts[..|acts| - 1], acts[|acts| - 1];
    assert forall i :: 0 <= i < |init| ==> acts[..i] == init[..i];
    if CheckedInTime(init, c) {
      var i :| 0 <= i < |init| && init[i] == Check(c) && Deadline(c) !in init[..i];
      assert acts[i] == Check(c) && Deadline(c) !in acts[..i];
    }
    if last == Check(c) && Deadline(c) !in init {
      assert acts[|acts| - 1] == Check(c) && Deadline(c) !in acts[..|acts| - 1];
    }
  }

  // ---------------------------------------------------------------- who can still publish

  // Some continuation of the run lets the call publish.
  ghost predicate CanPublish(s: State, c: Call) {
    exists acts :: Onwards(s, acts).Some? && c in Onwards(s, acts).value.pubs
  }

  // Waiting in the `select`, at a gate that has not been handed over to the call.
  predicate Blocked(s: State, c: Call) {
    c in s.locks.calls && s.locks.calls[c].Parked? && !PathLocks.HasToken(s.locks, c, s.locks.calls[c].gate)
  }

  // In the queue, and not bound to give up.
  predicate InTheQueue(s: State, c: Call) {
    c in s.locks.calls ==>
      (s.locks.calls[c].Selecting? || s.locks.calls[c].Parked?) && (Blocked(s, c) ==> c !in s.locks.done)
  }

  // Where a call that can still publish stands. A third try with something in the way depends
  // on somebody else clearing it, which only a call with another key can.
  predicate StillIn(s: State, c: Call) {
    && Ours(s, c)
    && match s.calls[c]
       case Starting => c !in s.locks.done
       case FirstTry => true
       case Queueing => InTheQueue(s, c)
       case SecondTry => true
       case Clearing => true
       case ThirdTry(_) => MayRename(s.staged[c], s.output) || !OneKey(s)
       case Unlocking(result) => result == Published
       case Dropping(result) => result == Published
       case Finished(result) => result == Published
  }

  lemma OutOfQueueUnlocked(s: State, a: Action, c: Call)
    requires Enabled(s, a) && Ours(s, c) && s.calls[c] == Queueing && !InTheQueue(s, c) && LockAction(a).None?
    ensures Ours(After(s, a), c) && !StillIn(After(s, a), c)
  {
    LocksFollow(s, a);
    assert After(s, a).calls[c] == Queueing;
    hide Enabled, After, MayRename;
  }

  lemma OutOfQueueLocked(s: State, a: Action, c: Call)
    requires PathLocks.TokenInv(s.locks) && Enabled(s, a) && Ours(s, c) && s.calls[c] == Queueing && !InTheQueue(s, c)
    requires LockAction(a).Some? && LockedAs(s, c)
    ensures var t := After(s, a);
      Ours(t, c) && (if t.calls[c] == Queueing then !InTheQueue(t, c) else t.calls[c] == Finished(GaveUp))
  {
    LocksFollow(s, a);
    TokensFollow(s.locks, LockAction(a).value, c);
    hide PathLocks.After, PathLocks.TokenInv, PathLocks.Enabled, Clean;
  }

  lemma OutOfQueueStaysOut(s: State, a: Action, c: Call)
    requires LockInv(s) && Enabled(s, a) && Ours(s, c) && s.calls[c] == Queueing && !InTheQueue(s, c)
    ensures Ours(After(s, a), c) && !StillIn(After(s, a), c)
  {
    assert LockedAs(s, c) && PathLocks.TokenInv(s.locks);
    hide LockInv, LockedAs, PathLocks.TokenInv, Enabled, After, InTheQueue, MayRename;
    if LockAction(a).Some? {
      OutOfQueueLocked(s, a, c);
    } else {
      OutOfQueueUnlocked(s, a, c);
    }
  }

  // What a step of the lock table does to a caller parked at a gate it was not handed.
  lemma TokensFollow(l: PathLocks.State, step: PathLocks.Action, c: Call)
    requires PathLocks.Enabled(l, step) && PathLocks.TokenInv(l)
    ensures step.Deadline? ==> PathLocks.After(l, step).calls == l.calls
    ensures !step.Deadline? ==>
      step.call in PathLocks.After(l, step).calls
      && PathLocks.After(l, step).calls == l.calls[step.call := PathLocks.After(l, step).calls[step.call]]
    ensures l.done <= PathLocks.After(l, step).done
    ensures var stuck := c in l.calls && l.calls[c].Parked? && !PathLocks.HasToken(l, c, l.calls[c].gate) && c in l.done;
      stuck ==>
        && !PathLocks.HasToken(PathLocks.After(l, step), c, l.calls[c].gate)
        && (step.call == c ==> step.Deadline? || step.Expire?)
    ensures step.call == c && step.Expire? ==> PathLocks.After(l, step).calls[c].GivingUp?
    ensures c in l.calls && l.calls[c].GivingUp? && step.call == c ==> step.Deadline? || step.Drop?
  {
    hide Clean;
  }

  lemma ThirdTryLocked(s: State, a: Action, c: Call)
    requires Enabled(s, a) && LockAction(a).Some? && Ours(s, c) && s.calls[c].ThirdTry?
    requires OneKey(s) && !MayRename(s.staged[c], s.output)
    ensures Ours(After(s, a), c) && !StillIn(After(s, a), c)
  {
    LocksFollow(s, a);
    ElsewhereInLocks(s, a, c);
    hide Enabled, After, MayRename, LockAction;
  }

  lemma ThirdTryUnlocked(s: State, a: Action, c: Call)
    requires Enabled(s, a) && LockAction(a).None? && Ours(s, c) && s.calls[c].ThirdTry? && (a.Clear? ==> a.call == c)
    requires OneKey(s) && !MayRename(s.staged[c], s.output)
    ensures Ours(After(s, a), c) && !StillIn(After(s, a), c)
  {
    hide Clean;
    assert OneKey(After(s, a));
  }

  lemma ThirdTryStaysOut(s: State, a: Action, c: Call)
    requires LockInv(s) && Enabled(s, a) && Ours(s, c) && s.calls[c].ThirdTry?
    requires OneKey(s) && !MayRename(s.staged[c], s.output)
    ensures Ours(After(s, a), c) && !StillIn(After(s, a), c)
  {
    if a.Clear? {
      OnePastTheLock(s, a.call, c);
    }
    hide Enabled, After, LockInv, OneKey, StillIn, MayRename;
    if LockAction(a).Some? {
      ThirdTryLocked(s, a, c);
    } else {
      ThirdTryUnlocked(s, a, c);
    }
  }

  lemma ElsewhereInLocks(s: State, a: Action, c: Call)
    requires Enabled(s, a) && Ours(s, c) && LockAction(a).Some?
    requires s.calls[c] != Queueing && !s.calls[c].Unlocking? && !s.calls[c].Dropping?
    ensures var t := After(s, a);
      t.calls == s.calls[c := s.calls[c]] || (a.Lock? && a.call != c && t.calls == s.calls[a.call := t.calls[a.call]])
    ensures After(s, a).staged == s.staged && After(s, a).keyOf == s.keyOf && After(s, a).output == s.output
    ensures c in After(s, a).calls && After(s, a).calls[c] == s.calls[c]
  {
    assert s.calls[c := s.calls[c]] == s.calls;
    hide PathLocks.After, PathLocks.Enabled;
  }

  // A call that gave up or was overtaken, or has a deadline behind it before its check, is done
  // with.
  lemma EndedStaysOut(s: State, a: Action, c: Call)
    requires Enabled(s, a) && LockAction(a).None? && Ours(s, c) && !StillIn(s, c)
    requires s.calls[c] != Queueing && !s.calls[c].ThirdTry?
    ensures Ours(After(s, a), c) && !StillIn(After(s, a), c)
  {
    hide MayRename, MayFail, Clean, OneKey;
  }

  lemma EndedStaysOutOfLocks(s: State, a: Action, c: Call)
    requires Enabled(s, a) && LockAction(a).Some? && Ours(s, c) && !StillIn(s, c) && LockedAs(s, c)
    requires s.calls[c] != Queueing && !s.calls[c].ThirdTry?
    ensures Ours(After(s, a), c) && !StillIn(After(s, a), c)
  {
    PathLocks.OnlyTheCallerMoves(s.locks, LockAction(a).value);
    hide PathLocks.After, PathLocks.Enabled, Clean, OneKey, MayRename;
  }

  lemma OutStaysOut(s: State, a: Action, c: Call)
    requires LockInv(s) && Enabled(s, a) && Ours(s, c) && !StillIn(s, c)
    ensures Ours(After(s, a), c) && !StillIn(After(s, a), c)
  {
    assert LockedAs(s, c);
    assert s.calls[c] == Queueing ==> !InTheQueue(s, c);
    assert s.calls[c].ThirdTry? ==> OneKey(s) && !MayRename(s.staged[c], s.output);
    hide *;
    if s.calls[c] == Queueing {
      OutOfQueueStaysOut(s, a, c);
    } else if s.calls[c].ThirdTry? {
      ThirdTryStaysOut(s, a, c);
    } else if LockAction(a).None? {
      EndedStaysOut(s, a, c);
    } else {
      EndedStaysOutOfLocks(s, a, c);
    }
  }

  lemma {:induction false} OutMeansNever(s: State, acts: seq<Action>, c: Call)
    requires Reachable(s) && Ours(s, c) && !StillIn(s, c) && Onwards(s, acts).Some?
    ensures c !in Onwards(s, acts).value.pubs
    decreases |acts|
  {
    ReachableInv(s);
    if acts == [] {
      assert !Ended(s.calls[c], Published);
    } else {
      ReachStep(s, acts[0]);
      OutStaysOut(s, acts[0], c);
      hide StillIn, Inv, Enabled, After;
      OutMeansNever(After(s, acts[0]), acts[1..], c);
    }
  }

  // ---------------------------------------------------------------- a way to publish

  lemma Nearer(s: State, a: Action, c: Call)
    requires Enabled(s, a) && CanPublish(After(s, a), c)
    ensures CanPublish(s, c)
  {
    var more :| Onwards(After(s, a), more).Some? && c in Onwards(After(s, a), more).value.pubs;
    var acts := [a] + more;
    assert acts[0] == a && acts[1..] == more;
    assert Onwards(s, acts) == Onwards(After(s, a), more);
  }

  lemma Already(s: State, c: Call)
    requires c in s.pubs
    ensures CanPublish(s, c)
  {
    assert Onwards(s, []) == Some(s);
  }

  lemma RenamePublishes(s: State, c: Call)
    requires Enabled(s, Rename(c, true))
    ensures CanPublish(s, c)
  {
    Already(After(s, Rename(c, true)), c);
    Nearer(s, Rename(c, true), c);
  }

  lemma FromTheLock(s: State, c: Call)
    requires Ours(s, c) && (s.calls[c] == SecondTry || s.calls[c] == Clearing)
    ensures CanPublish(s, c)
    decreases s.calls[c] == SecondTry
  {
    hide CanPublish;
    if s.calls[c] == Clearing {
      RenamePublishes(After(s, Clear(c)), c);
      Nearer(s, Clear(c), c);
    } else if MayRename(s.staged[c], s.output) {
      RenamePublishes(s, c);
    } else {
      FromTheLock(After(s, Rename(c, false)), c);
      Nearer(s, Rename(c, false), c);
    }
  }

  predicate Wants(s: State, c: Call) {
    Ours(s, c) && s.calls[c] == Queueing && InTheQueue(s, c)
  }

  // What a call that wants the lock can do about it: ask for it, take it, or let whoever has it
  // get on with giving it back.
  ghost predicate Approaches(s: State, a: Action, c: Call) {
    && Enabled(s, a) && !Arrival(a)
    && (if a.Lock? && a.call == c
        then a.step.Register? || a.step.Grant? || a.step.Wake?
        else exists d :: d != c && PathLocks.HasLock(s.locks, d) && WayOf(s, a, d)
               && c in s.keyOf && s.locks.calls[d].key == s.keyOf[c])
  }

  // What the lock table lets a call do that wants the lock, or who has it.
  lemma WhatItWaitsFor(s: State, c: Call) returns (step: PathLocks.Action, d: Call)
    requires Reachable(s) && Wants(s, c)
    ensures step.call == c && Clean(s.keyOf[c]) == s.keyOf[c]
    ensures d == c ==> PathLocks.Enabled(s.locks, step) && (step.Grant? || step.Wake? || step == PathLocks.Register(c, s.keyOf[c]))
    ensures d != c ==> PathLocks.HasLock(s.locks, d) && s.locks.calls[d].key == s.keyOf[c]
  {
    ReachableInv(s);
    assert LockedAs(s, c);
    step, d := PathLocks.Register(c, s.keyOf[c]), c;
    if c in s.locks.calls {
      var pc := s.locks.calls[c];
      assert pc.Parked? && !PathLocks.HasToken(s.locks, c, pc.gate) ==> PathLocks.InLine(s.locks, c, pc.gate);
      if pc.gate !in s.locks.tokens {
        step := PathLocks.Grant(c);
      } else {
        step, d := PathLocks.Wake(c), s.locks.tokens[pc.gate];
      }
    }
  }

  lemma LockStepIsEnabled(s: State, c: Call, step: PathLocks.Action)
    requires Ours(s, c) && s.calls[c] == Queueing && PathLocks.Enabled(s.locks, step) && step.call == c
    requires step.Grant? || step.Wake? || (step.Register? && Clean(step.path) == s.keyOf[c])
    ensures Approaches(s, Lock(c, step), c)
  {
    QueueStepIsEnabled(s, c, step);
    hide PathLocks.Enabled, Clean, Enabled;
  }

  lemma Approach(s: State, c: Call) returns (a: Action)
    requires Reachable(s) && Wants(s, c)
    ensures Approaches(s, a, c)
  {
    ReachableInv(s);
    hide InTheQueue;
    var step, d := WhatItWaitsFor(s, c);
    if d == c {
      hide Inv, Approaches, PathLocks.Enabled;
      LockStepIsEnabled(s, c, step);
      a := Lock(c, step);
    } else {
      a := HolderMoves(s, d);
      NotTheirs(s, a, c, d);
      hide Inv, Enabled, PathLocks.HasLock, PathLocks.Enabled, Arrival, WayOf;
    }
  }

  lemma NotTheirs(s: State, a: Action, c: Call, d: Call)
    requires WayOf(s, a, d) && d != c
    ensures !(a.Lock? && a.call == c)
  {
  }

  // Approaching ends in the lock, or leaves the call wanting it.
  lemma Approached(s: State, a: Action, c: Call)
    requires Wants(s, c) && Approaches(s, a, c)
    ensures var t := After(s, a); Ours(t, c) && (t.calls[c] == SecondTry || Wants(t, c))
  {
    LocksFollow(s, a);
    if LockAction(a).Some? {
      PathLocks.OnlyTheCallerMoves(s.locks, LockAction(a).value);
    }
    hide PathLocks.After, PathLocks.Enabled, PathLocks.HasLock, MayRename, MayFail, Clean;
  }

  lemma {:induction false} FromTheQueue(s: State, c: Call)
    requires Reachable(s) && Wants(s, c)
    ensures CanPublish(s, c)
    decreases StepsLeft(s)
  {
    ReachableInv(s);
    hide Inv, CanPublish, StepsLeft, Wants, Approaches;
    var a := Approach(s, c);
    Approached(s, a, c);
    assert Enabled(s, a) && !Arrival(a) by { ApproachesSay(s, a, c); }
    hide Enabled, After, Arrival;
    if After(s, a).calls[c] == SecondTry {
      FromTheLock(After(s, a), c);
    } else {
      ReachStep(s, a);
      EveryStepCounts(s, a);
      FromTheQueue(After(s, a), c);
    }
    Nearer(s, a, c);
  }

  lemma ApproachesSay(s: State, a: Action, c: Call)
    requires Approaches(s, a, c)
    ensures Enabled(s, a) && !Arrival(a)
  {
  }

  lemma FromTheFirstTry(s: State, c: Call)
    requires Reachable(s) && c in s.calls && s.calls[c] == FirstTry
    ensures CanPublish(s, c)
  {
    ReachableInv(s);
    FirstTriesAreUnlocked(s, c);
    assert Ours(s, c);
    if MayRename(s.staged[c], s.output) {
      hide CanPublish, Inv;
      RenamePublishes(s, c);
    } else {
      RenameQueues(s, c);
      hide *;
      ReachStep(s, Rename(c, false));
      FromTheQueue(After(s, Rename(c, false)), c);
      Nearer(s, Rename(c, false), c);
    }
  }

  lemma RenameQueues(s: State, c: Call)
    requires Ours(s, c) && s.calls[c] == FirstTry && c !in s.locks.calls && !MayRename(s.staged[c], s.output)
    ensures Enabled(s, Rename(c, false)) && Wants(After(s, Rename(c, false)), c)
  {
  }

  // ---------------------------------------------------------------- another key

  // A call that waits for something to be cleared out of the way, and one with another key that
  // will clear it.
  predicate Helped(s: State, c: Call, d: Call) {
    && Ours(s, c) && s.calls[c].ThirdTry?
    && Ours(s, d) && s.staged[d] == s.staged[c] && s.keyOf[d] != s.keyOf[c]
  }

  lemma HelperClears(s: State, c: Call, d: Call)
    requires Helped(s, c, d) && s.calls[d] == SecondTry
    ensures CanPublish(s, c)
  {
    hide CanPublish;
    if MayRename(s.staged[c], s.output) {
      RenamePublishes(s, c);
    } else {
      var s1 := After(s, Rename(d, false));
      RenamePublishes(After(s1, Clear(d)), c);
      Nearer(s1, Clear(d), c);
      Nearer(s, Rename(d, false), c);
    }
  }

  // A step of anyone else leaves a call in its third try where it is.
  lemma StepsLeaveOthers(s: State, a: Action, c: Call, d: Call)
    requires Enabled(s, a) && Helped(s, c, d) && s.calls[d] == Queueing
    requires !((a.Rename? || a.Clear? || a.Lock? || a.Check?) && a.call == c) && !Arrival(a)
    ensures Helped(After(s, a), c, d)
  {
    hide PathLocks.After, PathLocks.Enabled, MayRename, MayFail, Clean;
  }

  // A step towards the helper's lock leaves the helped where it is: their locks are two.
  lemma HelpStays(s: State, a: Action, c: Call, d: Call)
    requires LockInv(s) && Helped(s, c, d) && Wants(s, d) && Approaches(s, a, d)
    ensures Helped(After(s, a), c, d)
  {
    assert LockedAs(s, c);
    assert s.locks.calls[c].key == s.keyOf[c];
    assert !((a.Rename? || a.Clear? || a.Lock? || a.Check?) && a.call == c) by { hide Enabled, LockInv; }
    hide After, Enabled, LockInv, LockedAs, InTheQueue, Helped, PathLocks.HasLock, WayOf;
    StepsLeaveOthers(s, a, c, d);
  }

  lemma {:induction false} HelperComes(s: State, c: Call, d: Call)
    requires Reachable(s) && Helped(s, c, d) && Wants(s, d)
    ensures CanPublish(s, c)
    decreases StepsLeft(s)
  {
    ReachableInv(s);
    var a := Approach(s, d);
    HelpStays(s, a, c, d);
    hide Inv, CanPublish, StepsLeft, Wants, Approaches, Helped;
    Approached(s, a, d);
    ApproachesSay(s, a, d);
    hide Enabled, After, Arrival;
    if After(s, a).calls[d] == SecondTry {
      HelperClears(After(s, a), c, d);
    } else {
      ReachStep(s, a);
      EveryStepCounts(s, a);
      HelperComes(After(s, a), c, d);
    }
    Nearer(s, a, c);
  }

  lemma {:induction false} FreshCall(some: set<Call>) returns (d: Call)
    ensures forall c :: c in some ==> c < d
  {
    d := 0;
    if c :| c in some {
      var e := FreshCall(some - {c});
      d := if c < e then e else c + 1;
      assert forall x :: x in some ==> x == c || x in some - {c};
    }
  }

  predicate StillThere(s: State, t: State, c: Call) {
    Ours(s, c) && Ours(t, c) && t.staged[c] == s.staged[c] && t.output == s.output
  }

  lemma RenameHelps(s: State, c: Call, d: Call)
    requires Helped(s, c, d) && s.calls[d] == FirstTry && !MayRename(s.staged[c], s.output) && d !in s.locks.calls
    ensures Enabled(s, Rename(d, false)) && Helped(After(s, Rename(d, false)), c, d) && Wants(After(s, Rename(d, false)), d)
  {
  }

  lemma FirstTriesAreUnlocked(s: State, d: Call)
    requires LockInv(s) && d in s.calls && s.calls[d] == FirstTry
    ensures d !in s.locks.calls
  {
    assert LockedAs(s, d);
  }

  lemma HelperQueues(s: State, c: Call, d: Call)
    requires Reachable(s) && Helped(s, c, d) && s.calls[d] == FirstTry && !MayRename(s.staged[c], s.output)
    ensures CanPublish(s, c)
  {
    ReachableInv(s);
    FirstTriesAreUnlocked(s, d);
    RenameHelps(s, c, d);
    hide *;
    ReachStep(s, Rename(d, false));
    HelperComes(After(s, Rename(d, false)), c, d);
    Nearer(s, Rename(d, false), c);
  }

  lemma CheckHelps(s: State, c: Call, d: Call)
    requires Helped(s, c, d) && s.calls[d] == Starting && d !in s.locks.done
    ensures Enabled(s, Check(d)) && Helped(After(s, Check(d)), c, d)
    ensures After(s, Check(d)).calls[d] == FirstTry && StillThere(s, After(s, Check(d)), c)
  {
  }

  lemma HelperIsLetIn(s: State, c: Call, d: Call)
    requires Reachable(s) && Helped(s, c, d) && s.calls[d] == Starting && d !in s.locks.done && !MayRename(s.staged[c], s.output)
    ensures CanPublish(s, c)
  {
    ReachableInv(s);
    CheckHelps(s, c, d);
    assert !MayRename(After(s, Check(d)).staged[c], After(s, Check(d)).output);
    hide *;
    ReachStep(s, Check(d));
    HelperQueues(After(s, Check(d)), c, d);
    Nearer(s, Check(d), c);
  }

  lemma ArrivalHelps(s: State, c: Call, d: Call, key: string)
    requires Ours(s, c) && s.calls[c].ThirdTry? && s.staged[c] != Absent
    requires d !in s.calls && d !in s.locks.calls && d !in s.locks.done
    requires key in s.keys && key != s.keyOf[c] && Clean(key) == key
    ensures var a := Arrive(d, s.staged[c], key);
      && Enabled(s, a) && Helped(After(s, a), c, d) && After(s, a).calls[d] == Starting && d !in After(s, a).locks.done
      && StillThere(s, After(s, a), c)
  {
    hide Clean;
  }

  lemma HelperArrives(s: State, c: Call, d: Call, key: string)
    requires Reachable(s) && Ours(s, c) && s.calls[c].ThirdTry? && !MayRename(s.staged[c], s.output)
    requires d !in s.calls && d !in s.locks.calls && d !in s.locks.done && key in s.keys && key != s.keyOf[c]
    ensures CanPublish(s, c)
  {
    ReachableInv(s);
    var a := Arrive(d, s.staged[c], key);
    assert Clean(key) == key && s.staged[c] != Absent;
    ArrivalHelps(s, c, d, key);
    assert !MayRename(After(s, a).staged[c], After(s, a).output);
    hide *;
    ReachStep(s, a);
    HelperIsLetIn(After(s, a), c, d);
    Nearer(s, a, c);
  }

  lemma AnotherKey(s: State, c: Call) returns (key: string)
    requires Ours(s, c) && !OneKey(s)
    ensures key in s.keys && key != s.keyOf[c]
  {
    key :| key in s.keys && key != s.keyOf[c];
  }

  lemma FromTheThirdTry(s: State, c: Call)
    requires Reachable(s) && StillIn(s, c) && s.calls[c].ThirdTry?
    ensures CanPublish(s, c)
  {
    assert Ours(s, c) && (MayRename(s.staged[c], s.output) || !OneKey(s));
    if MayRename(s.staged[c], s.output) {
      assert Enabled(s, Rename(c, true));
      hide *;
      RenamePublishes(s, c);
    } else {
      hide *;
      var key := AnotherKey(s, c);
      var d := FreshCall(s.calls.Keys + s.locks.calls.Keys + s.locks.done);
      HelperArrives(s, c, d, key);
    }
  }

  // ---------------------------------------------------------------- exactly who

  lemma CheckLetsIn(s: State, c: Call)
    requires Ours(s, c) && s.calls[c] == Starting && c !in s.locks.done
    ensures Enabled(s, Check(c)) && c in After(s, Check(c)).calls && After(s, Check(c)).calls[c] == FirstTry
  {
  }

  lemma EndedInMeansPublished(s: State, c: Call)
    requires PubInv(s) && StillIn(s, c) && (s.calls[c].Unlocking? || s.calls[c].Dropping? || s.calls[c].Finished?)
    ensures c in s.pubs
  {
    assert Ended(s.calls[c], Published);
  }

  lemma InMeansPossible(s: State, c: Call)
    requires Reachable(s) && StillIn(s, c)
    ensures CanPublish(s, c)
  {
    assert Ours(s, c);
    assert s.calls[c] == Queueing ==> Wants(s, c);
    assert s.calls[c] == Starting ==> c !in s.locks.done;
    if s.calls[c].Unlocking? || s.calls[c].Dropping? || s.calls[c].Finished? {
      ReachableInv(s);
      EndedInMeansPublished(s, c);
    }
    hide CanPublish, StillIn, Reachable, Inv, Enabled, After, Wants, InTheQueue;
    match s.calls[c]
    case Starting =>
      CheckLetsIn(s, c);
      ReachStep(s, Check(c));
      FromTheFirstTry(After(s, Check(c)), c);
      Nearer(s, Check(c), c);
    case FirstTry => FromTheFirstTry(s, c);
    case Queueing => FromTheQueue(s, c);
    case SecondTry => FromTheLock(s, c);
    case Clearing => FromTheLock(s, c);
    case ThirdTry(_) => FromTheThirdTry(s, c);
    case _ => Already(s, c);
  }

  lemma PossibleMeansIn(s: State, c: Call)
    requires Reachable(s) && c in s.calls && CanPublish(s, c)
    ensures StillIn(s, c)
  {
    ReachableInv(s);
    assert Ours(s, c);
    if !StillIn(s, c) {
      var acts :| Onwards(s, acts).Some? && c in Onwards(s, acts).value.pubs;
      OutMeansNever(s, acts, c);
    }
  }

  // Which calls some continuation of the run still lets publish.
  lemma WhoCanPublish(s: State, c: Call)
    requires Reachable(s) && c in s.calls
    ensures CanPublish(s, c) <==> StillIn(s, c)
  {
    ReachableInv(s);
    hide Inv, StillIn;
    if StillIn(s, c) {
      InMeansPossible(s, c);
    }
    if CanPublish(s, c) {
      PossibleMeansIn(s, c);
    }
  }

  lemma DeadlineLeaves(s: State, c: Call)
    requires StillIn(s, c)
    ensures StillIn(After(s, Deadline(c)), c) <==> !(s.calls[c] == Starting || (s.calls[c] == Queueing && Blocked(s, c)))
  {
  }

  // A deadline takes the possibility away exactly when it comes before the call's check, or
  // finds the call waiting in the `select` for a lock it has not been handed.
  lemma WhenADeadlineStops(s: State, c: Call)
    requires Reachable(s) && c in s.calls && CanPublish(s, c)
    ensures !CanPublish(After(s, Deadline(c)), c) <==>
      s.calls[c] == Starting || (s.calls[c] == Queueing && Blocked(s, c))
  {
    ReachableInv(s);
    ReachStep(s, Deadline(c));
    var t := After(s, Deadline(c));
    assert c in t.calls;
    hide Inv, After, Enabled, StillIn, CanPublish;
    PossibleMeansIn(s, c);
    DeadlineLeaves(s, c);
    if StillIn(t, c) {
      InMeansPossible(t, c);
    } else if CanPublish(t, c) {
      PossibleMeansIn(t, c);
    }
  }

  lemma MayLeaveTheQueue(s: State, c: Call) returns (step: PathLocks.Action)
    requires LockInv(s) && c in s.calls && s.calls[c] == Queueing && c in s.locks.calls && c in s.locks.done
    ensures PathLocks.Enabled(s.locks, step) && step.call == c && (step.Drop? || step.Expire? || step.Wake?)
  {
    assert LockedAs(s, c);
    var pc := s.locks.calls[c];
    step :=
      if pc.GivingUp? then PathLocks.Drop(c)
      else if pc.Parked? && PathLocks.HasToken(s.locks, c, pc.gate) then PathLocks.Wake(c)
      else PathLocks.Expire(c);
  }

  // Waiting for another download does not outlast the caller's own deadline: whoever is in the
  // queue past it can give up at once, or has the lock.
  lemma WaitingEndsAtTheDeadline(s: State, c: Call) returns (step: PathLocks.Action)
    requires Reachable(s) && c in s.calls && s.calls[c] == Queueing && c in s.locks.calls && c in s.locks.done
    ensures Enabled(s, Lock(c, step)) && (step.Drop? || step.Expire? || (step.Wake? && PathLocks.HasLock(s.locks, c)))
  {
    ReachableInv(s);
    step := MayLeaveTheQueue(s, c);
    assert Ours(s, c);
    assert step.Wake? ==> PathLocks.HasLock(s.locks, c);
    hide *;
    QueueStepIsEnabled(s, c, step);
  }
}
