/** What `pathLocks` of client/output.go gives its callers, over every interleaving of them. */
module Locks {
  import opened Wrappers
  import opened Counting
  import opened LockTable
  import opened PathLocks

  // At most one caller has the lock of a cleaned path, through every deletion and remaking of
  // its entry.
  lemma MutualExclusion(s: State, c: Call, d: Call)
    requires Reachable(s) && HasLock(s, c) && HasLock(s, d)
    requires s.calls[c].key == s.calls[d].key
    ensures c == d
  {
    ReachableInv(s);
    OneHolderPerKey(s, c, d);
  }

  // The table is exact, and empty once everyone is gone.
  lemma TableIsExact(s: State)
    requires Reachable(s)
    ensures s.table.held.Keys == s.table.waiting.Keys
    ensures forall key :: Waiting(s.table, key) == Users(s.calls, key)
    ensures (forall c :: c in s.calls ==> s.calls[c].Gone?) ==> s.table.held == map[] && s.table.waiting == map[]
  {
    ReachableInv(s);
    forall key ensures Waiting(s.table, key) == Users(s.calls, key) {
      assert KeyCounted(s, key);
    }
    if forall c :: c in s.calls ==> s.calls[c].Gone? {
      forall key ensures Users(s.calls, key) == 0 {
        assert Those(s.calls, (pc: Pc) => Uses(pc, key)) == {};
      }
      forall key ensures key !in s.table.waiting {
        assert KeyCounted(s, key);
      }
    }
  }

  // Giving a lock back never blocks. A caller is kept waiting only while another has the lock of
  // its own key, and not past the end of its own context.
  lemma OnlyHoldersBlock(s: State, c: Call)
    requires Reachable(s) && c in s.calls
    ensures s.calls[c].Holding? ==> exists heir :: Enabled(s, Unlock(c, heir))
    ensures s.calls[c].Selecting? && !Enabled(s, Grant(c)) ==> exists d :: HasLock(s, d) && s.calls[d].key == s.calls[c].key
    ensures s.calls[c].Parked? && c !in s.done && !Enabled(s, Wake(c)) ==>
      exists d :: HasLock(s, d) && s.calls[d].key == s.calls[c].key
    ensures (s.calls[c].Selecting? || s.calls[c].Parked?) && c in s.done ==> Enabled(s, Expire(c)) || Enabled(s, Wake(c))
  {
    ReachableInv(s);
    if s.calls[c].Holding? {
      var heir := UnlockIsPossible(s, c);
    } else if (s.calls[c].Selecting? || s.calls[c].Parked?) && s.calls[c].gate in s.tokens {
      var d := s.tokens[s.calls[c].gate];
      assert HasLock(s, d) && s.calls[d].key == s.calls[c].key;
    } else if s.calls[c].Parked? {
      assert !InLine(s, c, s.calls[c].gate);
    }
  }

  function LockedBy(s: State, key: string): Option<Call> {
    if key in s.table.held && s.table.held[key] in s.tokens then Some(s.tokens[s.table.held[key]]) else None
  }

  // The abstract lock of a key is held by exactly the caller that has it.
  lemma HoldersLock(s: State, c: Call, key: string)
    requires Reachable(s)
    ensures LockedBy(s, key) == Some(c) <==> HasLock(s, c) && s.calls[c].key == key
  {
    ReachableInv(s);
    if LockedBy(s, key) == Some(c) {
      assert s.table.held[key] == s.table.held[s.calls[c].key];
    }
  }

  lemma TableStepsKeepLocks(s: State, a: Action, key: string)
    requires Inv(s) && Enabled(s, a) && (a.Register? || a.Drop?)
    ensures LockedBy(After(s, a), key) == LockedBy(s, key)
  {
    if LockedBy(s, key).Some? {
      var t, c := After(s, a), LockedBy(s, key).value;
      CountStep(s, a);
      UserIsCounted(t, c);
      assert KeyCounted(t, key);
    }
  }

  // Seen through `LockedBy` the table is one plain lock per key: taken only when free, given
  // back only by its holder, and then free or with whoever of those in line for it parked first,
  // untouched by every other step of anyone.
  lemma RefinesOneLockPerKey(s: State, a: Action, key: string)
    requires Reachable(s) && Enabled(s, a)
    ensures var before, after := LockedBy(s, key), LockedBy(After(s, a), key);
      if a.Grant? && s.calls[a.call].key == key then before == None && after == Some(a.call)
      else if a.Unlock? && s.calls[a.call].key == key then before == Some(a.call) && after == a.heir
      else after == before
  {
    ReachableInv(s);
    if a.Unlock? {
      HoldersLock(s, a.call, s.calls[a.call].key);
    }
    if a.Register? || a.Drop? {
      TableStepsKeepLocks(s, a, key);
    }
  }

  // A lock given back goes to a caller of the same key.
  lemma HeirsShareTheKey(s: State, c: Call, heir: Call)
    requires Reachable(s) && Enabled(s, Unlock(c, Some(heir)))
    ensures s.calls[heir].key == s.calls[c].key && HasLock(After(s, Unlock(c, Some(heir))), heir)
  {
    ReachableInv(s);
  }

  // So short of everyone being done, and the table empty, there is a step to take that needs
  // no new caller and no context to end.
  lemma StuckMeansGone(s: State)
    requires Reachable(s)
    requires forall a :: Enabled(s, a) ==> Arrival(a)
    ensures forall c :: c in s.calls ==> s.calls[c].Gone?
    ensures s.table.held == map[] && s.table.waiting == map[]
  {
    ReachableInv(s);
    forall c | c in s.calls ensures s.calls[c].Gone? {
      if !s.calls[c].Gone? {
        var a := SomebodyMoves(s, c);
      }
    }
    TableIsExact(s);
  }

  // ---------------------------------------------------------------- first come, first served

  // The one parked before the other did.
  ghost predicate ParkedFirst(acts: seq<Action>, c: Call, d: Call) {
    exists i, j :: 0 <= i < j < |acts| && acts[i] == Park(c) && acts[j] == Park(d)
  }

  lemma OneMoreAction(acts: seq<Action>, c: Call, d: Call)
    requires acts != []
    ensures var init, last := acts[..|acts| - 1], acts[|acts| - 1];
      ParkedFirst(acts, c, d) <==> ParkedFirst(init, c, d) || (last == Park(d) && Park(c) in init)
  {
    var init, last := acts[..|acts| - 1], acts[|acts| - 1];
    if ParkedFirst(init, c, d) {
      var i, j :| 0 <= i < j < |init| && init[i] == Park(c) && init[j] == Park(d);
      assert acts[i] == Park(c) && acts[j] == Park(d);
    }
    if last == Park(d) && Park(c) in init {
      var i :| 0 <= i < |init| && init[i] == Park(c);
      assert acts[i] == Park(c) && acts[|init|] == Park(d);
    }
    if ParkedFirst(acts, c, d) {
      var i, j :| 0 <= i < j < |acts| && acts[i] == Park(c) && acts[j] == Park(d);
      assert init[i] == Park(c);
      assert j < |init| ==> init[j] == Park(d);
    }
  }

  lemma ParkStep(s: State, a: Action, c: Call)
    requires Enabled(s, a)
    ensures c in After(s, a).calls && After(s, a).calls[c].Parked? ==>
      if a == Park(c) then After(s, a).calls[c].ticket == s.tickets
      else c in s.calls && s.calls[c] == After(s, a).calls[c]
    ensures a == Park(c) ==> c in s.calls && s.calls[c].Selecting?
    ensures c in s.calls && !s.calls[c].Selecting? ==> c in After(s, a).calls && !After(s, a).calls[c].Selecting?
    ensures After(s, a).tickets == s.tickets + (if a.Park? then 1 else 0)
  {
    OnlyTheCallerMoves(s, a);
  }

  // Who has parked is past selecting for good, and whoever is parked now has parked.
  lemma {:induction false} ParkedOnce(acts: seq<Action>, c: Call)
    requires Replay(acts).Some?
    ensures var s := Replay(acts).value;
      && (Park(c) in acts ==> c in s.calls && !s.calls[c].Selecting?)
      && (c in s.calls && s.calls[c].Parked? ==> Park(c) in acts && s.calls[c].ticket < s.tickets)
  {
    if acts != [] {
      var init, last := acts[..|acts| - 1], acts[|acts| - 1];
      assert acts == init + [last];
      ParkedOnce(init, c);
      ParkStep(Replay(init).value, last, c);
      if last == Park(c) {
        OnlyTheCallerMoves(Replay(init).value, last);
      }
      hide Enabled, After;
    }
  }

  lemma {:induction false} TicketsAreInOrder(acts: seq<Action>, c: Call, d: Call)
    requires Replay(acts).Some? && c != d
    requires var s := Replay(acts).value;
      c in s.calls && s.calls[c].Parked? && d in s.calls && s.calls[d].Parked?
    ensures var s := Replay(acts).value;
      s.calls[c].ticket < s.calls[d].ticket <==> ParkedFirst(acts, c, d)
    ensures var s := Replay(acts).value; s.calls[c].ticket != s.calls[d].ticket
  {
    if acts != [] {
      var init, last := acts[..|acts| - 1], acts[|acts| - 1];
      var before := Replay(init).value;
      ParkedOnce(init, c);
      ParkedOnce(init, d);
      ParkStep(before, last, c);
      ParkStep(before, last, d);
      OneMoreAction(acts, c, d);
      hide Enabled, After, ParkedFirst;
      if last == Park(c) || last == Park(d) {
        NotParkedFirst(init, c, d);
        NotParkedFirst(init, d, c);
      } else {
        TicketsAreInOrder(init, c, d);
      }
    }
  }

  lemma NotParkedFirst(acts: seq<Action>, c: Call, d: Call)
    ensures ParkedFirst(acts, c, d) ==> Park(c) in acts && Park(d) in acts
  {
  }

  // A lock given back goes to a caller that waits for it with its context alive, before all who
  // parked at that gate after it did, and to nobody only if there is no such caller.
  lemma FirstComeFirstServed(acts: seq<Action>, s: State, c: Call, heir: Option<Call>, d: Call)
    requires Replay(acts) == Some(s) && Enabled(s, Unlock(c, heir))
    requires d in s.calls && s.calls[d].Parked? && s.calls[d].key == s.calls[c].key && d !in s.done
    ensures heir.Some? && HasLock(After(s, Unlock(c, heir)), heir.value) && heir.value !in s.done
    ensures heir != Some(d) ==> ParkedFirst(acts, heir.value, d)
  {
    RunsKeepInv(acts);
    assert InLine(s, d, s.calls[c].gate);
    if heir != Some(d) {
      TicketsAreInOrder(acts, heir.value, d);
    }
  }

  lemma {:induction false} DoneStays(acts: seq<Action>, c: Call)
    requires Replay(acts).Some? && Deadline(c) in acts
    ensures c in Replay(acts).value.done
  {
    var init, last := acts[..|acts| - 1], acts[|acts| - 1];
    assert acts == init + [last];
    OnlyTheCallerMoves(Replay(init).value, last);
    if last != Deadline(c) {
      DoneStays(init, c);
    }
    hide Enabled, After;
  }

  // Nobody parks whose context has ended: finding the gate full it gives up at once.
  lemma NobodyParksTooLate(acts: seq<Action>, c: Call)
    requires Replay(acts).Some? && Deadline(c) in acts
    ensures Replay(acts + [Park(c)]).None?
  {
    DoneStays(acts, c);
    assert (acts + [Park(c)])[..|acts|] == acts;
  }

  // Who has gone had the lock exactly if it gave it back.
  lemma {:induction false} GoneTellsWhoHeld(acts: seq<Action>, c: Call)
    requires Replay(acts).Some?
    ensures var s := Replay(acts).value;
      c in s.calls && (s.calls[c].Leaving? || s.calls[c].Gone?) ==>
        (s.calls[c].Leaving? || s.calls[c].held <==> exists heir :: Unlock(c, heir) in acts)
    ensures var s := Replay(acts).value;
      (exists heir :: Unlock(c, heir) in acts) ==> c in s.calls && (s.calls[c].Leaving? || s.calls[c].Gone?)
  {
    if acts != [] {
      var init, last := acts[..|acts| - 1], acts[|acts| - 1];
      assert acts == init + [last];
      GoneTellsWhoHeld(init, c);
      OnlyTheCallerMoves(Replay(init).value, last);
      assert last.Unlock? && last.call == c ==> last == Unlock(c, last.heir);
      hide Enabled, After;
    }
  }
}
