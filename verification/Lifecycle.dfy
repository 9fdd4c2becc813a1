/**
 The node lifecycle protocol of client/client.go as a state machine.

 Any number of downloads, idle timers and `Close` calls interleave. A critical section
 is one step and uses the functions of `ClientCore`; building a node, closing the
 start-up channel, tearing a node down and a timer firing are steps of their own.
 */
module Lifecycle {
  import opened Wrappers
  import opened ClientCore
  import opened Counting

  // Where a start-up stands between the second critical section and closing the channel.
  datatype Outcome = Failed | Installed | TooLate

  // Where a download goroutine is. `Holding` runs from `acquire` returning a node until
  // the deferred `release`; `Unwinding` is an `acquire` about to release on its way out.
  datatype Pc =
    | Entering
    | Waiting(pending: Call)
    | Building
    | Built(ok: bool)
    | Recorded(outcome: Outcome)
    | TearingDown
    | Unwinding
    | Holding(node: Call)
    | Returned

  // A fired timer's goroutine, before and after its critical section.
  datatype SweepPc = Fired | Sweeping(node: Call) | Done

  datatype ClosePc = Arrived | Closing(node: Call) | Closed

  datatype Closer = ByStarter | BySweep | ByClose

  // Who is responsible for a node that was built.
  datatype Owner = Starter | TheClient | ASweep(timer: Call) | AClose(id: nat) | Nobody(closer: Closer)

  datatype Teardown = Teardown(node: Call, closer: Closer)

  datatype State = State(
    idle: int,
    sh: Shared,
    calls: map<Call, Pc>,
    sweeps: map<Call, SweepPc>,
    closes: map<nat, ClosePc>,
    signalled: set<Call>,      // start-up channels that have been closed
    owner: map<Call, Owner>,   // history: every node built, and its owner
    torn: seq<Teardown>        // history: every `node.close()`, in order
  )

  datatype Action =
    | Arrive(call: Call)
    | Acquire(call: Call)
    | Wake(call: Call)
    | GiveUp(call: Call)
    | Build(call: Call, ok: bool)
    | Settle(call: Call)
    | Announce(call: Call)
    | TearDownOwn(call: Call)
    | Release(call: Call)
    | Fire(timer: Call)
    | CloseIdle(timer: Call)
    | TearDownIdle(timer: Call)
    | ArriveClose(id: nat)
    | Close(id: nat)
    | TearDownClose(id: nat)

  function Initial(idle: int): State {
    State(idle, Shared(None, None, 0, None, false, {}), map[], map[], map[], {}, map[], [])
  }

  predicate Enabled(s: State, a: Action) {
    match a
    case Arrive(c) => c !in s.calls
    case Acquire(c) => c in s.calls && s.calls[c] == Entering
    case Wake(c) => c in s.calls && s.calls[c].Waiting? && s.calls[c].pending in s.signalled
    case GiveUp(c) => c in s.calls && s.calls[c].Waiting?
    case Build(c, ok) => c in s.calls && s.calls[c] == Building
    case Settle(c) => c in s.calls && s.calls[c].Built?
    case Announce(c) => c in s.calls && s.calls[c].Recorded?
    case TearDownOwn(c) => c in s.calls && s.calls[c] == TearingDown
    case Release(c) => c in s.calls && (s.calls[c].Holding? || s.calls[c] == Unwinding)
    case Fire(t) => t in s.sh.ticking
    case CloseIdle(t) => t in s.sweeps && s.sweeps[t] == Fired
    case TearDownIdle(t) => t in s.sweeps && s.sweeps[t].Sweeping?
    case ArriveClose(k) => k !in s.closes
    case Close(k) => k in s.closes && s.closes[k] == Arrived
    case TearDownClose(k) => k in s.closes && s.closes[k].Closing?
  }

  function After(s: State, a: Action): State
    requires Enabled(s, a)
  {
    match a
    case Arrive(c) => s.(calls := s.calls[c := Entering])

    case Acquire(c) =>
      var (sh, claim) := Claimed(s.sh, c);
      var pc := match claim
        case Refused => Returned
        case Reuse(n) => Holding(n)
        case Await(p) => Waiting(p)
        case Start => Building;
      s.(sh := sh, calls := s.calls[c := pc])

    case Wake(c) => s.(calls := s.calls[c := Entering])

    case GiveUp(c) => s.(calls := s.calls[c := Returned])

    case Build(c, ok) =>
      s.(calls := s.calls[c := Built(ok)], owner := if ok then s.owner[c := Starter] else s.owner)

    case Settle(c) =>
      var ok := s.calls[c].ok;
      var outcome := if !ok then Failed else if s.sh.closed then TooLate else Installed;
      s.(sh := Settled(s.sh, c, ok),
         calls := s.calls[c := Recorded(outcome)],
         owner := if outcome == Installed then s.owner[c := TheClient] else s.owner)

    case Announce(c) =>
      var pc := match s.calls[c].outcome
        case Failed => Unwinding
        case Installed => Holding(c)
        case TooLate => TearingDown;
      s.(signalled := s.signalled + {c}, calls := s.calls[c := pc])

    case TearDownOwn(c) => TornDown(s, c, ByStarter).(calls := s.calls[c := Unwinding])

    case Release(c) => s.(sh := Released(s.sh, c, s.idle), calls := s.calls[c := Returned])

    case Fire(t) =>
      s.(sh := s.sh.(ticking := s.sh.ticking - {t}), sweeps := s.sweeps[t := Fired])

    case CloseIdle(t) =>
      var (sh, victim) := Swept(s.sh);
      if victim.None? then s.(sh := sh, sweeps := s.sweeps[t := Done])
      else s.(sh := sh, sweeps := s.sweeps[t := Sweeping(victim.value)],
              owner := s.owner[victim.value := ASweep(t)])

    case TearDownIdle(t) => TornDown(s, s.sweeps[t].node, BySweep).(sweeps := s.sweeps[t := Done])

    case ArriveClose(k) => s.(closes := s.closes[k := Arrived])

    case Close(k) =>
      var (sh, victim) := Retired(s.sh);
      if victim.None? then s.(sh := sh, closes := s.closes[k := Closed])
      else s.(sh := sh, closes := s.closes[k := Closing(victim.value)],
              owner := s.owner[victim.value := AClose(k)])

    case TearDownClose(k) => TornDown(s, s.closes[k].node, ByClose).(closes := s.closes[k := Closed])
  }

  function TornDown(s: State, node: Call, closer: Closer): State {
    s.(owner := s.owner[node := Nobody(closer)], torn := s.torn + [Teardown(node, closer)])
  }

  // ---------------------------------------------------------------- invariant

  predicate UnderConstruction(pc: Pc) {
    pc == Building || pc.Built?
  }

  // Between claiming a place in `inflight` and the matching `release`.
  predicate Claiming(pc: Pc) {
    !(pc == Entering || pc.Waiting? || pc == Returned)
  }

  predicate Borrows(pc: Pc, call: Call, node: Call) {
    pc == Holding(node) || (pc == Recorded(Installed) && node == call)
  }

  // What the program state itself says about who owns `node`.
  ghost predicate Owns(s: State, o: Owner, node: Call) {
    match o
    case Starter =>
      node in s.calls && (s.calls[node] == Built(true) || s.calls[node] == Recorded(TooLate) || s.calls[node] == TearingDown)
    case TheClient => s.sh.node == Some(node)
    case ASweep(t) => t in s.sweeps && s.sweeps[t] == Sweeping(node)
    case AClose(k) => k in s.closes && s.closes[k] == Closing(node)
    case Nobody(closer) => Teardown(node, closer) in s.torn
  }

  ghost predicate StartInv(s: State) {
    && (forall c :: s.sh.starting == Some(c) <==> c in s.calls && UnderConstruction(s.calls[c]))
    && (s.sh.starting.Some? ==> s.sh.node.None?)
    && (s.sh.closed ==> s.sh.node.None? && s.sh.timer.None?)
  }

  ghost predicate CountInv(s: State) {
    s.sh.inflight == Count(s.calls, Claiming)
  }

  ghost predicate OwnerInv(s: State) {
    && (forall n, o :: Owns(s, o, n) <==> n in s.owner && s.owner[n] == o)
    && (forall n :: n in s.owner ==> n in s.calls && HasBuilt(s.calls[n]))
    && (forall i, j :: 0 <= i < j < |s.torn| ==> s.torn[i].node != s.torn[j].node)
  }

  predicate HasBuilt(pc: Pc) {
    pc == Built(true) || pc == Recorded(Installed) || pc == Recorded(TooLate)
    || pc == TearingDown || pc == Unwinding || pc.Holding? || pc == Returned
  }

  ghost predicate BorrowInv(s: State) {
    forall c, n :: c in s.calls && Borrows(s.calls[c], c, n) ==>
      n in s.owner && SafeForBorrower(s.owner[n])
  }

  predicate SafeForBorrower(o: Owner) {
    o == TheClient || o.AClose? || o == Nobody(ByClose)
  }

  ghost predicate ChannelInv(s: State) {
    && (forall p :: p in s.signalled ==> p in s.calls && Announced(s.calls[p]))
    && (forall c :: c in s.calls && s.calls[c].Waiting? ==> Awaitable(s, s.calls[c].pending))
  }

  predicate Announced(pc: Pc) {
    pc == TearingDown || pc == Unwinding || pc.Holding? || pc == Returned
  }

  ghost predicate Awaitable(s: State, p: Call) {
    p in s.calls && (UnderConstruction(s.calls[p]) || s.calls[p].Recorded? || p in s.signalled)
  }

  ghost predicate TimerInv(s: State) {
    && (forall t :: t in s.sh.ticking ==> t in s.calls && s.calls[t] == Returned && t !in s.sweeps)
    && (forall t :: t in s.sweeps ==> t in s.calls && s.calls[t] == Returned)
    && (IdleNode(s) ==> s.sh.timer.Some? && WillSweep(s, s.sh.timer.value))
  }

  predicate IdleNode(s: State) {
    s.idle > 0 && !s.sh.closed && s.sh.node.Some? && s.sh.inflight == 0
  }

  predicate WillSweep(s: State, t: Call) {
    t in s.sh.ticking || (t in s.sweeps && s.sweeps[t] == Fired)
  }

  ghost predicate Inv(s: State) {
    StartInv(s) && CountInv(s) && OwnerInv(s) && BorrowInv(s) && ChannelInv(s) && TimerInv(s)
  }

  // ---------------------------------------------------------------- preservation

  // The steps a call takes itself.
  predicate ByCall(a: Action) {
    a.Arrive? || a.Acquire? || a.Wake? || a.GiveUp? || a.Build? || a.Settle? || a.Announce? || a.TearDownOwn? || a.Release?
  }

  // A call moves itself alone, and `inflight` with its claim.
  lemma CallMoves(s: State, a: Action)
    requires Enabled(s, a)
    ensures var t := After(s, a);
      if ByCall(a) then
        && a.call in t.calls && t.calls == s.calls[a.call := t.calls[a.call]]
        && t.sh.inflight == s.sh.inflight + One(Claiming(t.calls[a.call]))
             - One(a.call in s.calls && Claiming(s.calls[a.call]))
      else t.calls == s.calls && t.sh.inflight == s.sh.inflight
  {
  }

  lemma CountStep(s: State, a: Action)
    requires CountInv(s) && Enabled(s, a)
    ensures CountInv(After(s, a))
  {
    CallMoves(s, a);
    hide After, Enabled, Count;
    if ByCall(a) {
      CountUpdate(s.calls, a.call, After(s, a).calls[a.call], Claiming);
    }
  }

  // A call with a claim is counted, so a count of zero means there is none.
  lemma ClaimsAreCounted(s: State)
    requires CountInv(s)
    ensures s.sh.inflight >= 0
    ensures forall c :: c in s.calls && Claiming(s.calls[c]) ==> s.sh.inflight >= 1
  {
    forall c | c in s.calls && Claiming(s.calls[c]) ensures s.sh.inflight >= 1 {
      CountAtLeastOne(s.calls, c, Claiming);
    }
  }

  // The steps of the fields under the mutex: critical sections, and timers firing.
  predicate TouchesShared(a: Action) {
    a.Acquire? || a.Settle? || a.Release? || a.CloseIdle? || a.Close? || a.Fire?
  }

  lemma StartStepOutside(s: State, a: Action)
    requires StartInv(s) && Enabled(s, a) && !TouchesShared(a)
    ensures StartInv(After(s, a))
  {
  }

  lemma StartStep(s: State, a: Action)
    requires StartInv(s) && Enabled(s, a)
    ensures StartInv(After(s, a))
  {
    if !TouchesShared(a) {
      StartStepOutside(s, a);
    }
  }

  lemma NotTornYet(s: State, o: Owner, node: Call)
    requires OwnerInv(s) && Owns(s, o, node) && !o.Nobody?
    ensures forall i :: 0 <= i < |s.torn| ==> s.torn[i].node != node
  {
    forall i | 0 <= i < |s.torn| ensures s.torn[i].node != node {
      assert Owns(s, Nobody(s.torn[i].closer), s.torn[i].node);
    }
  }

  // The node an action hands over is owned, before it, by whoever the program state says.
  lemma Handover(s: State, a: Action)
    requires StartInv(s) && OwnerInv(s) && Enabled(s, a)
    ensures (a.CloseIdle? || a.Close?) && s.sh.node.Some? ==> Owns(s, TheClient, s.sh.node.value)
    ensures a.Settle? && s.calls[a.call].ok ==> Owns(s, Starter, a.call)
    ensures a.Build? ==> a.call !in s.owner
    ensures a.TearDownOwn? ==> NeverTorn(s, Starter, a.call)
    ensures a.TearDownIdle? ==> NeverTorn(s, ASweep(a.timer), s.sweeps[a.timer].node)
    ensures a.TearDownClose? ==> NeverTorn(s, AClose(a.id), s.closes[a.id].node)
  {
    match a
    case TearDownOwn(c) => NotTornYet(s, Starter, c);
    case TearDownIdle(t) => NotTornYet(s, ASweep(t), s.sweeps[t].node);
    case TearDownClose(k) => NotTornYet(s, AClose(k), s.closes[k].node);
    case _ =>
  }

  ghost predicate NeverTorn(s: State, o: Owner, node: Call) {
    && Owns(s, o, node)
    && forall i :: 0 <= i < |s.torn| ==> s.torn[i].node != node
  }

  lemma OwnersStay(s: State, a: Action, n: Call, o: Owner)
    requires TimerInv(s) && Enabled(s, a)
    requires !(a.Build? || a.Settle? || a.CloseIdle? || a.Close? || a.TearDownOwn? || a.TearDownIdle? || a.TearDownClose?)
    ensures After(s, a).owner == s.owner
    ensures Owns(After(s, a), o, n) <==> Owns(s, o, n)
  {
  }

  lemma OwnersBuilt(s: State, a: Action, n: Call, o: Owner)
    requires StartInv(s) && OwnerInv(s) && Enabled(s, a) && a.Build?
    ensures Owns(After(s, a), o, n) <==> n in After(s, a).owner && After(s, a).owner[n] == o
  {
    assert Owns(s, o, n) <==> n in s.owner && s.owner[n] == o;
    Handover(s, a);
  }

  lemma OwnersSettled(s: State, a: Action, n: Call, o: Owner)
    requires StartInv(s) && OwnerInv(s) && Enabled(s, a) && a.Settle?
    ensures Owns(After(s, a), o, n) <==> n in After(s, a).owner && After(s, a).owner[n] == o
  {
    assert Owns(s, o, n) <==> n in s.owner && s.owner[n] == o;
    Handover(s, a);
  }

  lemma OwnersSwept(s: State, a: Action, n: Call, o: Owner)
    requires StartInv(s) && OwnerInv(s) && Enabled(s, a) && a.CloseIdle?
    ensures Owns(After(s, a), o, n) <==> n in After(s, a).owner && After(s, a).owner[n] == o
  {
    assert Owns(s, o, n) <==> n in s.owner && s.owner[n] == o;
    Handover(s, a);
  }

  lemma OwnersClosed(s: State, a: Action, n: Call, o: Owner)
    requires StartInv(s) && OwnerInv(s) && Enabled(s, a) && a.Close?
    ensures Owns(After(s, a), o, n) <==> n in After(s, a).owner && After(s, a).owner[n] == o
  {
    assert Owns(s, o, n) <==> n in s.owner && s.owner[n] == o;
    Handover(s, a);
  }

  lemma OwnersTornOwn(s: State, a: Action, n: Call, o: Owner)
    requires StartInv(s) && OwnerInv(s) && Enabled(s, a) && a.TearDownOwn?
    ensures Owns(After(s, a), o, n) <==> n in After(s, a).owner && After(s, a).owner[n] == o
  {
    assert Owns(s, o, n) <==> n in s.owner && s.owner[n] == o;
    Handover(s, a);
  }

  lemma OwnersTornIdle(s: State, a: Action, n: Call, o: Owner)
    requires StartInv(s) && OwnerInv(s) && Enabled(s, a) && a.TearDownIdle?
    ensures Owns(After(s, a), o, n) <==> n in After(s, a).owner && After(s, a).owner[n] == o
  {
    assert Owns(s, o, n) <==> n in s.owner && s.owner[n] == o;
    Handover(s, a);
  }

  lemma OwnersTornClose(s: State, a: Action, n: Call, o: Owner)
    requires StartInv(s) && OwnerInv(s) && Enabled(s, a) && a.TearDownClose?
    ensures Owns(After(s, a), o, n) <==> n in After(s, a).owner && After(s, a).owner[n] == o
  {
    assert Owns(s, o, n) <==> n in s.owner && s.owner[n] == o;
    Handover(s, a);
  }

  lemma OwnersFollow(s: State, a: Action, n: Call, o: Owner)
    requires StartInv(s) && OwnerInv(s) && TimerInv(s) && Enabled(s, a)
    ensures Owns(After(s, a), o, n) <==> n in After(s, a).owner && After(s, a).owner[n] == o
  {
    match a
    case Build(_, _) => OwnersBuilt(s, a, n, o);
    case Settle(_) => OwnersSettled(s, a, n, o);
    case CloseIdle(_) => OwnersSwept(s, a, n, o);
    case Close(_) => OwnersClosed(s, a, n, o);
    case TearDownOwn(_) => OwnersTornOwn(s, a, n, o);
    case TearDownIdle(_) => OwnersTornIdle(s, a, n, o);
    case TearDownClose(_) => OwnersTornClose(s, a, n, o);
    case _ => OwnersStay(s, a, n, o);
  }

  lemma OwnerStep(s: State, a: Action)
    requires StartInv(s) && OwnerInv(s) && TimerInv(s) && Enabled(s, a)
    ensures OwnerInv(After(s, a))
  {
    forall n, o ensures Owns(After(s, a), o, n) <==> n in After(s, a).owner && After(s, a).owner[n] == o {
      OwnersFollow(s, a, n, o);
    }
    BuiltStaysBuilt(s, a);
  }

  lemma BuiltStaysBuilt(s: State, a: Action)
    requires StartInv(s) && OwnerInv(s) && Enabled(s, a)
    ensures var t := After(s, a);
      && (forall n :: n in t.owner ==> n in t.calls && HasBuilt(t.calls[n]))
      && (forall i, j :: 0 <= i < j < |t.torn| ==> t.torn[i].node != t.torn[j].node)
  {
    var t := After(s, a);
    Handover(s, a);
    TornOnce(s, a);
    forall n | n in t.owner ensures n in t.calls && HasBuilt(t.calls[n]) {
      BuiltNodeStays(s, a, n);
    }
  }

  lemma HasBuiltStays(s: State, a: Action, n: Call)
    requires Enabled(s, a) && n in s.calls && HasBuilt(s.calls[n])
    ensures n in After(s, a).calls && HasBuilt(After(s, a).calls[n])
  {
  }

  lemma OwnedComeFromBuilds(s: State, a: Action, n: Call)
    requires Enabled(s, a) && n in After(s, a).owner
    ensures || n in s.owner
      || (a == Build(n, true) && After(s, a).calls[n] == Built(true))
      || (a == Settle(n) && s.calls[n].ok)
      || ((a.CloseIdle? || a.Close?) && s.sh.node == Some(n))
      || (a == TearDownOwn(n) && Owns(s, Starter, n))
      || (a.TearDownIdle? && s.sweeps[a.timer].node == n)
      || (a.TearDownClose? && s.closes[a.id].node == n)
  {
  }

  lemma BuiltNodeStays(s: State, a: Action, n: Call)
    requires StartInv(s) && OwnerInv(s) && Enabled(s, a) && n in After(s, a).owner
    ensures n in After(s, a).calls && HasBuilt(After(s, a).calls[n])
  {
    Handover(s, a);
    OwnedComeFromBuilds(s, a, n);
    if n in s.owner {
      HasBuiltStays(s, a, n);
    }
    hide HasBuilt, StartInv;
  }

  lemma TornOnce(s: State, a: Action)
    requires OwnerInv(s) && StartInv(s) && Enabled(s, a)
    ensures var t := After(s, a);
      forall i, j :: 0 <= i < j < |t.torn| ==> t.torn[i].node != t.torn[j].node
  {
    Handover(s, a);
    hide StartInv, Owns;
    assert a.TearDownOwn? || a.TearDownIdle? || a.TearDownClose? || After(s, a).torn == s.torn;
  }

  // A node that is borrowed keeps an owner its borrower can live with.
  lemma BorrowedStaysSafe(s: State, a: Action, n: Call)
    requires StartInv(s) && OwnerInv(s) && Enabled(s, a)
    requires n in s.owner && SafeForBorrower(s.owner[n])
    requires s.sh.inflight > 0
    ensures n in After(s, a).owner && SafeForBorrower(After(s, a).owner[n])
  {
    Handover(s, a);
  }

  // Where a loan comes from: it was there, it is the installed node, or it is being installed.
  lemma LoansStart(s: State, a: Action, c: Call, n: Call)
    requires Enabled(s, a) && c in After(s, a).calls && Borrows(After(s, a).calls[c], c, n)
    ensures (c in s.calls && Borrows(s.calls[c], c, n))
      || (a == Acquire(c) && s.sh.node == Some(n) && After(s, a).owner == s.owner)
      || (a == Settle(c) && n in After(s, a).owner && After(s, a).owner[n] == TheClient)
  {
  }

  lemma LoanStaysSafe(s: State, a: Action, c: Call, n: Call)
    requires StartInv(s) && CountInv(s) && OwnerInv(s) && BorrowInv(s) && Enabled(s, a)
    requires c in After(s, a).calls && Borrows(After(s, a).calls[c], c, n)
    ensures n in After(s, a).owner && SafeForBorrower(After(s, a).owner[n])
  {
    hide After, Enabled, StartInv, CountInv;
    LoansStart(s, a, c, n);
    if c in s.calls && Borrows(s.calls[c], c, n) {
      ClaimsAreCounted(s);
      BorrowedStaysSafe(s, a, n);
    } else if a == Acquire(c) {
      assert Owns(s, TheClient, n);
    }
  }

  lemma BorrowStep(s: State, a: Action)
    requires StartInv(s) && CountInv(s) && OwnerInv(s) && BorrowInv(s) && Enabled(s, a)
    ensures BorrowInv(After(s, a))
  {
    hide After, Enabled, StartInv, CountInv, OwnerInv;
    forall c, n | c in After(s, a).calls && Borrows(After(s, a).calls[c], c, n)
      ensures n in After(s, a).owner && SafeForBorrower(After(s, a).owner[n])
    {
      LoanStaysSafe(s, a, c, n);
    }
  }

  // A channel that can be waited for goes on being so: its maker gets to closing it.
  lemma AwaitableStays(s: State, a: Action, p: Call)
    requires Enabled(s, a) && Awaitable(s, p)
    ensures Awaitable(After(s, a), p)
  {
  }

  lemma SignalledStays(s: State, a: Action, p: Call)
    requires Enabled(s, a) && p in After(s, a).signalled
    requires p in s.signalled ==> p in s.calls && Announced(s.calls[p])
    ensures p in After(s, a).calls && Announced(After(s, a).calls[p])
  {
  }

  lemma ChannelStep(s: State, a: Action)
    requires StartInv(s) && ChannelInv(s) && Enabled(s, a)
    ensures ChannelInv(After(s, a))
  {
    var t := After(s, a);
    forall p | p in t.signalled ensures p in t.calls && Announced(t.calls[p]) {
      SignalledStays(s, a, p);
    }
    forall c | c in t.calls && t.calls[c].Waiting? ensures Awaitable(t, t.calls[c].pending) {
      var p := t.calls[c].pending;
      assert Awaitable(s, p) by {
        assert s.calls[c] == t.calls[c] || s.sh.starting == Some(p);
      }
      AwaitableStays(s, a, p);
    }
  }

  // Only a release arms a timer, and only a timer that ticks can fire.
  lemma TimersComeFromReleases(s: State, a: Action, t: Call)
    requires Enabled(s, a)
    ensures t in After(s, a).sh.ticking ==> t in s.sh.ticking || a == Release(t)
    ensures t in After(s, a).sweeps ==> t in s.sweeps || (a == Fire(t) && t !in After(s, a).sh.ticking)
    ensures t in s.sweeps ==> t in After(s, a).sweeps
  {
  }

  lemma ReturnedStays(s: State, a: Action, c: Call)
    requires Enabled(s, a) && c in s.calls && (s.calls[c] == Returned || a == Release(c))
    ensures c in After(s, a).calls && After(s, a).calls[c] == Returned
    ensures s.calls[c] == Returned ==> a != Release(c)
  {
  }

  lemma TimerBelongsToTheDone(s: State, a: Action, t: Call)
    requires TimerInv(s) && Enabled(s, a)
    requires t in After(s, a).sh.ticking || t in After(s, a).sweeps
    ensures t in After(s, a).calls && After(s, a).calls[t] == Returned
    ensures t in After(s, a).sh.ticking ==> t !in After(s, a).sweeps
  {
    TimersComeFromReleases(s, a, t);
    assert a == Fire(t) ==> t in s.sh.ticking;
    assert a == Release(t) ==> t in s.calls;
    hide After, Enabled;
    ReturnedStays(s, a, t);
  }

  lemma IdleNodeIsWatched(s: State, a: Action)
    requires StartInv(s) && CountInv(s) && TimerInv(s) && Enabled(s, a) && IdleNode(After(s, a))
    ensures After(s, a).sh.timer.Some? && WillSweep(After(s, a), After(s, a).sh.timer.value)
  {
    ClaimsAreCounted(s);
  }

  lemma TimerStep(s: State, a: Action)
    requires StartInv(s) && CountInv(s) && TimerInv(s) && Enabled(s, a)
    ensures TimerInv(After(s, a))
  {
    forall t | t in After(s, a).sh.ticking || t in After(s, a).sweeps
      ensures t in After(s, a).calls && After(s, a).calls[t] == Returned
      ensures t in After(s, a).sh.ticking ==> t !in After(s, a).sweeps
    {
      TimerBelongsToTheDone(s, a, t);
    }
    if IdleNode(After(s, a)) {
      IdleNodeIsWatched(s, a);
    }
  }

  lemma StepKeepsInv(s: State, a: Action)
    requires Inv(s) && Enabled(s, a)
    ensures Inv(After(s, a))
  {
    StartStep(s, a);
    CountStep(s, a);
    OwnerStep(s, a);
    BorrowStep(s, a);
    ChannelStep(s, a);
    TimerStep(s, a);
  }

  // ---------------------------------------------------------------- whole runs

  // The state a sequence of actions leads to, if every action of it was possible.
  function Replay(idle: int, acts: seq<Action>): Option<State> {
    if acts == [] then Some(Initial(idle))
    else
      var before := Replay(idle, acts[..|acts| - 1]);
      var last := acts[|acts| - 1];
      if before.Some? && Enabled(before.value, last) then Some(After(before.value, last)) else None
  }

  ghost predicate Reachable(s: State) {
    exists acts :: Replay(s.idle, acts) == Some(s)
  }

  lemma {:induction false} RunsKeepInv(idle: int, acts: seq<Action>)
    ensures Replay(idle, acts).Some? ==> Inv(Replay(idle, acts).value) && Replay(idle, acts).value.idle == idle
  {
    if acts == [] {
      assert Those(Initial(idle).calls, Claiming) == {};
    } else {
      var init, last := acts[..|acts| - 1], acts[|acts| - 1];
      RunsKeepInv(idle, init);
      if Replay(idle, acts).Some? {
        StepKeepsInv(Replay(idle, init).value, last);
      }
    }
  }

  lemma ReachableInv(s: State)
    requires Reachable(s)
    ensures Inv(s)
  {
    var acts :| Replay(s.idle, acts) == Some(s);
    RunsKeepInv(s.idle, acts);
  }

  // The history variable `owner` holds exactly the nodes a start-up returned.
  lemma {:induction false} OwnedAreBuilt(idle: int, acts: seq<Action>, n: Call)
    requires Replay(idle, acts).Some?
    ensures n in Replay(idle, acts).value.owner <==> Build(n, true) in acts
  {
    if acts != [] {
      var init, last := acts[..|acts| - 1], acts[|acts| - 1];
      var s := Replay(idle, init).value;
      OwnedAreBuilt(idle, init, n);
      RunsKeepInv(idle, init);
      assert acts == init + [last];
      assert s.sh.node.Some? ==> Owns(s, TheClient, s.sh.node.value);
      Handover(s, last);
    }
  }

  lemma OneOwner(s: State, n: Call)
    requires Reachable(s) && n in s.owner
    ensures exists o :: Owns(s, o, n)
    ensures forall o, p :: Owns(s, o, n) && Owns(s, p, n) ==> o == p
  {
    ReachableInv(s);
    assert Owns(s, s.owner[n], n);
  }

  lemma ClosedAtMostOnce(s: State)
    requires Reachable(s)
    ensures forall i, j :: 0 <= i < j < |s.torn| ==> s.torn[i].node != s.torn[j].node
    ensures forall i :: 0 <= i < |s.torn| ==> s.torn[i].node in s.owner
  {
    ReachableInv(s);
    forall i | 0 <= i < |s.torn| ensures s.torn[i].node in s.owner {
      assert Owns(s, Nobody(s.torn[i].closer), s.torn[i].node);
    }
  }

  // While a download holds a node, only `Close` may take it away or tear it down.
  lemma HeldNodeIsClosedOnlyByClose(s: State, c: Call, o: Owner)
    requires Reachable(s)
    requires c in s.calls && s.calls[c].Holding? && Owns(s, o, s.calls[c].node)
    ensures o == TheClient || o.AClose? || o == Nobody(ByClose)
    ensures o != TheClient ==> s.sh.closed
  {
    ReachableInv(s);
    var n := s.calls[c].node;
    assert Borrows(s.calls[c], c, n);
    var acts :| Replay(s.idle, acts) == Some(s);
    OnlyACloseTakesOnceClosed(s.idle, acts);
  }

  // Close calls own or have closed something only once the client is closed.
  lemma {:induction false} OnlyACloseTakesOnceClosed(idle: int, acts: seq<Action>)
    requires Replay(idle, acts).Some?
    ensures ClosesComeAfterClosed(Replay(idle, acts).value)
  {
    if acts != [] {
      var init, last := acts[..|acts| - 1], acts[|acts| - 1];
      OnlyACloseTakesOnceClosed(idle, init);
      CloseStep(Replay(idle, init).value, last);
    }
  }

  lemma CloseStep(s: State, a: Action)
    requires ClosesComeAfterClosed(s) && Enabled(s, a)
    ensures ClosesComeAfterClosed(After(s, a))
  {
    var t := After(s, a);
    forall k, n | Owns(t, AClose(k), n) ensures t.sh.closed {
      assert a == Close(k) || Owns(s, AClose(k), n);
    }
    forall n | Owns(t, Nobody(ByClose), n) ensures t.sh.closed {
      assert (a.TearDownClose? && Owns(s, AClose(a.id), n)) || Owns(s, Nobody(ByClose), n);
    }
  }

  ghost predicate ClosesComeAfterClosed(s: State) {
    && (forall k, n :: Owns(s, AClose(k), n) ==> s.sh.closed)
    && (forall n :: Owns(s, Nobody(ByClose), n) ==> s.sh.closed)
  }

  // Everyone who could still tear a node down has finished.
  predicate Quiet(s: State) {
    && (forall c :: c in s.calls ==> s.calls[c] == Returned)
    && (forall t :: t in s.sweeps ==> s.sweeps[t] == Done)
    && (forall k :: k in s.closes ==> s.closes[k] == Closed)
  }

  lemma EveryNodeIsClosedInTheEnd(s: State, n: Call)
    requires Reachable(s) && Quiet(s) && n in s.owner
    requires s.sh.closed || (s.idle > 0 && s.sh.ticking == {})
    ensures exists closer :: Teardown(n, closer) in s.torn
  {
    ReachableInv(s);
    assert Those(s.calls, Claiming) == {};
    assert Owns(s, s.owner[n], n);
    assert Teardown(n, s.owner[n].closer) in s.torn;
  }

  lemma AtMostOneNode(s: State)
    requires Reachable(s)
    ensures s.sh.starting.Some? ==> s.sh.node.None? && s.sh.inflight >= 1
    ensures s.sh.closed ==> s.sh.node.None?
    ensures forall c, d :: c in s.calls && d in s.calls && UnderConstruction(s.calls[c]) && UnderConstruction(s.calls[d]) ==> c == d
    ensures forall c :: c in s.calls && UnderConstruction(s.calls[c]) ==> s.sh.node.None?
    ensures s.sh.inflight == Count(s.calls, Claiming)
  {
    ReachableInv(s);
    ClaimsAreCounted(s);
  }

  // An idle node always has a sweep on its way, and that sweep takes it.
  lemma NoIdleNodeIsLeaked(s: State)
    requires Reachable(s) && IdleNode(s)
    ensures exists t :: WillSweep(s, t)
    ensures forall t :: t in s.sh.ticking ==> Enabled(s, Fire(t))
    ensures forall t :: t in s.sweeps && s.sweeps[t] == Fired ==>
      Enabled(s, CloseIdle(t)) && After(s, CloseIdle(t)).sh.node.None? && After(s, CloseIdle(t)).sweeps[t] == Sweeping(s.sh.node.value)
  {
    ReachableInv(s);
  }

  // A timer that somebody entering or closing finds named never fires.
  lemma StoppedTimersDoNotFire(s: State, a: Action, t: Call)
    requires Enabled(s, a) && !s.sh.closed && s.sh.timer == Some(t) && (a.Acquire? || a.Close?)
    ensures !Enabled(After(s, a), Fire(t)) && After(s, a).sh.timer.None?
  {
  }

  // A sweep has taken a node since timer `t` was armed.
  ghost predicate NodeTakenSince(idle: int, acts: seq<Action>, t: Call) {
    exists i, j :: 0 <= i < j < |acts| && acts[i] == Release(t) && TakesTheNode(Replay(idle, acts[..j]), acts[j])
  }

  predicate TakesTheNode(at: Option<State>, a: Action) {
    && at.Some? && a.CloseIdle? && Enabled(at.value, a)
    && at.value.sh.node.Some? && After(at.value, a).sh.node.None?
  }

  lemma NodeTakenBefore(idle: int, acts: seq<Action>, a: Action, t: Call)
    requires NodeTakenSince(idle, acts, t)
    ensures NodeTakenSince(idle, acts + [a], t)
  {
    var i, j :| 0 <= i < j < |acts| && acts[i] == Release(t) && TakesTheNode(Replay(idle, acts[..j]), acts[j]);
    var more := acts + [a];
    assert more[i] == Release(t) && more[..j] == acts[..j] && more[j] == acts[j];
  }

  // What a step does to a timer that ticks after it.
  lemma TickingStep(s: State, a: Action, t: Call)
    requires TimerInv(s) && Enabled(s, a) && t in After(s, a).sh.ticking
    ensures if a == Release(t) then After(s, a).sh.timer == Some(t) else t in s.sh.ticking
    ensures s.sh.timer == Some(t) && After(s, a).sh.timer != Some(t) ==> TakesTheNode(Some(s), a) || a == Release(t)
  {
  }

  lemma {:induction false} ArmedByRelease(idle: int, acts: seq<Action>, t: Call)
    requires Replay(idle, acts).Some? && t in Replay(idle, acts).value.sh.ticking
    ensures exists i :: 0 <= i < |acts| && acts[i] == Release(t)
  {
    if acts != [] {
      var init, last := acts[..|acts| - 1], acts[|acts| - 1];
      RunsKeepInv(idle, init);
      TickingStep(Replay(idle, init).value, last, t);
      hide Enabled, After, Inv;
      if last == Release(t) {
        assert acts[|acts| - 1] == Release(t);
      } else {
        ArmedByRelease(idle, init, t);
        var i :| 0 <= i < |init| && init[i] == Release(t);
        assert acts[i] == Release(t);
      }
    }
  }

  lemma {:induction false} TickingIsNamedOrTaken(idle: int, acts: seq<Action>, t: Call)
    requires Replay(idle, acts).Some? && t in Replay(idle, acts).value.sh.ticking
    ensures Replay(idle, acts).value.sh.timer == Some(t) || NodeTakenSince(idle, acts, t)
  {
    if acts != [] {
      var init, last := acts[..|acts| - 1], acts[|acts| - 1];
      var before := Replay(idle, init).value;
      RunsKeepInv(idle, init);
      TickingStep(before, last, t);
      hide Enabled, After, Inv, TakesTheNode;
      assert init + [last] == acts;
      if last != Release(t) {
        TickingIsNamedOrTaken(idle, init, t);
        if before.sh.timer == Some(t) {
          if Replay(idle, acts).value.sh.timer != Some(t) {
            ArmedByRelease(idle, init, t);
            var i :| 0 <= i < |init| && init[i] == Release(t);
            assert acts[i] == Release(t) && TakesTheNode(Replay(idle, acts[..|init|]), acts[|init|]);
          }
        } else {
          NodeTakenBefore(idle, init, last, t);
        }
      }
    }
  }

  lemma ReleaseReturns(s: State, a: Action, t: Call)
    requires Enabled(s, a)
    ensures a == Release(t) ==> t in After(s, a).calls && After(s, a).calls[t] == Returned
    ensures t in s.calls && s.calls[t] == Returned ==> a != Release(t) && t in After(s, a).calls && After(s, a).calls[t] == Returned
  {
  }

  lemma {:induction false} ReleasedOnce(idle: int, acts: seq<Action>, t: Call)
    requires Replay(idle, acts).Some? && Release(t) in acts
    ensures t in Replay(idle, acts).value.calls && Replay(idle, acts).value.calls[t] == Returned
  {
    var init, last := acts[..|acts| - 1], acts[|acts| - 1];
    assert acts == init + [last];
    ReleaseReturns(Replay(idle, init).value, last, t);
    if last != Release(t) {
      ReleasedOnce(idle, init, t);
    }
    hide Enabled, After;
  }

  lemma NodeTakenLast(idle: int, acts: seq<Action>, a: Action, t: Call)
    requires NodeTakenSince(idle, acts + [a], t)
    ensures Release(t) in acts
    ensures NodeTakenSince(idle, acts, t) || TakesTheNode(Replay(idle, acts), a)
  {
    var more := acts + [a];
    var i, j :| 0 <= i < j < |more| && more[i] == Release(t) && TakesTheNode(Replay(idle, more[..j]), more[j]);
    assert acts[i] == Release(t);
    if j < |acts| {
      assert more[..j] == acts[..j] && more[j] == acts[j];
    } else {
      assert more[..j] == acts;
    }
  }

  lemma TakingUnnames(s: State, a: Action, t: Call)
    requires Enabled(s, a) && After(s, a).sh.timer == Some(t)
    ensures !TakesTheNode(Some(s), a)
    ensures s.sh.timer == Some(t) || a == Release(t)
  {
  }

  // No sweep has taken a node since the timer it names was armed: a sweep that takes one leaves
  // none named.
  lemma {:induction false} NamedMeansNotTaken(idle: int, acts: seq<Action>, t: Call)
    requires Replay(idle, acts).Some? && Replay(idle, acts).value.sh.timer == Some(t)
    ensures !NodeTakenSince(idle, acts, t)
  {
    if NodeTakenSince(idle, acts, t) {
      var init, last := acts[..|acts| - 1], acts[|acts| - 1];
      var before := Replay(idle, init).value;
      assert acts == init + [last] && Replay(idle, init) == Some(before) && Enabled(before, last);
      assert After(before, last).sh.timer == Some(t);
      hide Enabled, After, TakesTheNode, NodeTakenSince, Replay;
      NodeTakenLast(idle, init, last, t);
      ReleasedOnce(idle, init, t);
      TakingUnnames(before, last, t);
      ReleaseReturns(before, last, t);
      NamedMeansNotTaken(idle, init, t);
    }
  }

  // Over every run, a timer that ticks is the one `client.timer` names exactly if no sweep has
  // taken a node since it was armed.
  lemma TickingTimersAreNamed(idle: int, acts: seq<Action>, t: Call)
    requires Replay(idle, acts).Some? && t in Replay(idle, acts).value.sh.ticking
    ensures Replay(idle, acts).value.sh.timer == Some(t) <==> !NodeTakenSince(idle, acts, t)
  {
    TickingIsNamedOrTaken(idle, acts, t);
    if Replay(idle, acts).value.sh.timer == Some(t) {
      NamedMeansNotTaken(idle, acts, t);
    }
  }

  lemma NamedStep(s: State, a: Action, t: Call)
    requires Enabled(s, a) && After(s, a).sh.timer == Some(t)
    ensures a != Release(t) ==> s.sh.timer == Some(t)
    ensures a == Release(t) && s.sh.timer != Some(t) ==> t in After(s, a).sh.ticking
    ensures s.sh.timer == Some(t) && (t in s.sh.ticking || t in s.sweeps) ==> t in After(s, a).sh.ticking || t in After(s, a).sweeps
  {
  }

  // And the timer it names is armed: it ticks, or it has fired.
  lemma {:induction false} NamedTimersAreArmed(idle: int, acts: seq<Action>, t: Call)
    requires Replay(idle, acts).Some? && Replay(idle, acts).value.sh.timer == Some(t)
    ensures t in Replay(idle, acts).value.sh.ticking || t in Replay(idle, acts).value.sweeps
  {
    if acts != [] {
      var init, last := acts[..|acts| - 1], acts[|acts| - 1];
      var before := Replay(idle, init).value;
      NamedStep(before, last, t);
      hide Enabled, After;
      if before.sh.timer == Some(t) {
        NamedTimersAreArmed(idle, init, t);
      }
    }
  }

  predicate Timerless(s: State) {
    s.idle <= 0 && s.sh.timer.None? && s.sh.ticking == {} && s.sweeps == map[]
  }

  lemma TimerlessStep(s: State, a: Action)
    requires Timerless(s) && Enabled(s, a)
    ensures Timerless(After(s, a)) && After(s, a).idle == s.idle
  {
  }

  // With idle shutdown off there is never a timer.
  lemma {:induction false} NoTimersWithoutIdling(idle: int, acts: seq<Action>)
    requires Replay(idle, acts).Some? && idle <= 0
    ensures Replay(idle, acts).value.sh.timer.None? && Replay(idle, acts).value.sh.ticking == {}
    ensures Replay(idle, acts).value.sweeps == map[] && Timerless(Replay(idle, acts).value)
  {
    if acts != [] {
      NoTimersWithoutIdling(idle, acts[..|acts| - 1]);
      TimerlessStep(Replay(idle, acts[..|acts| - 1]).value, acts[|acts| - 1]);
      hide Enabled, After;
    }
  }

  // Nobody has entered `acquire` since timer `t` was armed.
  ghost predicate UnusedSinceArmed(acts: seq<Action>, t: Call) {
    exists i :: 0 <= i < |acts| && acts[i] == Release(t) && forall j :: i < j < |acts| ==> !acts[j].Acquire?
  }

  lemma {:induction false} NamedTimerIsUnused(idle: int, acts: seq<Action>, t: Call)
    requires Replay(idle, acts).Some?
    requires !Replay(idle, acts).value.sh.closed && Replay(idle, acts).value.sh.timer == Some(t)
    ensures UnusedSinceArmed(acts, t)
  {
    var init, last := acts[..|acts| - 1], acts[|acts| - 1];
    var before := Replay(idle, init).value;
    if last == Release(t) {
      assert acts[|acts| - 1] == Release(t);
    } else {
      assert before.sh.timer == Some(t) && !last.Acquire?;
      NamedTimerIsUnused(idle, init, t);
      var i :| 0 <= i < |init| && init[i] == Release(t) && forall j :: i < j < |init| ==> !init[j].Acquire?;
      assert acts[i] == Release(t);
    }
  }

  predicate Armed(s: State, t: Call) {
    t in s.sh.ticking || t in s.sweeps
  }

  predicate StillNamed(s: State, t: Call) {
    s.sh.inflight == 0 && (s.sh.closed || s.sh.node.None? || s.sh.timer == Some(t))
  }

  lemma ReleaseArms(s: State, t: Call)
    requires TimerInv(s) && Enabled(s, Release(t)) && Armed(After(s, Release(t)), t)
    ensures Released(s.sh, t, s.idle).timer == Some(t) && s.sh.inflight <= 1
  {
    assert s.calls[t] != Returned && !Armed(s, t);
  }

  // While nobody enters `acquire` there is nobody to release either, so nothing is armed.
  lemma QuietKeepsNamed(s: State, a: Action, t: Call)
    requires CountInv(s) && Enabled(s, a) && StillNamed(s, t) && !a.Acquire?
    ensures StillNamed(After(s, a), t)
  {
    ClaimsAreCounted(s);
  }

  lemma ArmedBefore(s: State, a: Action, t: Call)
    requires Enabled(s, a) && a != Release(t) && Armed(After(s, a), t)
    ensures Armed(s, t)
  {
  }

  lemma UnusedBefore(acts: seq<Action>, t: Call)
    requires acts != [] && UnusedSinceArmed(acts, t) && acts[|acts| - 1] != Release(t)
    ensures UnusedSinceArmed(acts[..|acts| - 1], t) && !acts[|acts| - 1].Acquire?
  {
    var init := acts[..|acts| - 1];
    var i :| 0 <= i < |acts| && acts[i] == Release(t) && forall j :: i < j < |acts| ==> !acts[j].Acquire?;
    assert i < |init| && init[i] == Release(t);
  }

  lemma {:induction false} UnusedTimerIsNamed(idle: int, acts: seq<Action>, t: Call)
    requires Replay(idle, acts).Some?
    requires Armed(Replay(idle, acts).value, t) && UnusedSinceArmed(acts, t)
    ensures StillNamed(Replay(idle, acts).value, t)
  {
    var init, last := acts[..|acts| - 1], acts[|acts| - 1];
    var before := Replay(idle, init).value;
    RunsKeepInv(idle, init);
    hide OwnerInv, BorrowInv, ChannelInv, StartInv;
    if last == Release(t) {
      ReleaseArms(before, t);
      ClaimsAreCounted(before);
    } else {
      hide Enabled, After, Armed, StillNamed, UnusedSinceArmed;
      UnusedBefore(acts, t);
      ArmedBefore(before, last, t);
      UnusedTimerIsNamed(idle, init, t);
      QuietKeepsNamed(before, last, t);
    }
  }

  // While the client is open and has a node, a timer that was armed and not stopped has seen
  // out a time without a download exactly when it is the one `client.timer` names.
  lemma CurrentSweepIsOnTime(idle: int, acts: seq<Action>, s: State, t: Call)
    requires Replay(idle, acts) == Some(s) && !s.sh.closed && s.sh.node.Some?
    requires t in s.sh.ticking || t in s.sweeps
    ensures s.sh.timer == Some(t) <==> UnusedSinceArmed(acts, t)
  {
    if s.sh.timer == Some(t) {
      NamedTimerIsUnused(idle, acts, t);
    }
    if UnusedSinceArmed(acts, t) {
      UnusedTimerIsNamed(idle, acts, t);
    }
  }

  lemma Extend(idle: int, acts: seq<Action>, s: State, a: Action) returns (more: seq<Action>, t: State)
    requires Replay(idle, acts) == Some(s) && Enabled(s, a)
    ensures t == After(s, a) && more == acts + [a] && Replay(idle, more) == Some(t)
  {
    more, t := acts + [a], After(s, a);
    assert more[..|acts|] == acts;
  }

  lemma OneStartUp(idle: int) returns (acts: seq<Action>, s: State)
    requires idle > 0
    ensures Replay(idle, acts) == Some(s) && s.idle == idle && s.sweeps == map[]
    ensures s.sh == Shared(Some(0), None, 1, None, false, {}) && s.calls == map[0 := Recorded(Installed)]
  {
    acts, s := [], Initial(idle);
    acts, s := Extend(idle, acts, s, Arrive(0));
    hide Replay;
    acts, s := Extend(idle, acts, s, Acquire(0));
    assert s.sh == Shared(None, Some(0), 1, None, false, {}) && s.calls == map[0 := Building];
    acts, s := Extend(idle, acts, s, Build(0, true));
    acts, s := Extend(idle, acts, s, Settle(0));
  }

  // One download, start to finish, leaving its node idle and timer 0 armed.
  lemma OneDownload(idle: int) returns (acts: seq<Action>, s: State)
    requires idle > 0
    ensures Replay(idle, acts) == Some(s) && s.idle == idle
    ensures s.sh == Shared(Some(0), None, 0, Some(0), false, {0})
    ensures s.calls == map[0 := Returned] && s.sweeps == map[]
  {
    hide Replay;
    acts, s := OneStartUp(idle);
    acts, s := Extend(idle, acts, s, Announce(0));
    acts, s := Extend(idle, acts, s, Release(0));
  }

  // Any other sweep can come early. Timer 0 fires, and before its sweep gets the mutex another
  // download comes and goes and arms timer 1: the sweep takes the node all the same.
  lemma AStaleSweepComesEarly(idle: int)
    requires idle > 0
    ensures exists acts, s ::
      && Replay(idle, acts) == Some(s) && s.sh.timer == Some(1) && 1 in s.sh.ticking
      && Enabled(s, CloseIdle(0)) && After(s, CloseIdle(0)).sh.node != s.sh.node
  {
    hide Replay;
    var acts, s := OneDownload(idle);
    acts, s := Extend(idle, acts, s, Fire(0));
    acts, s := Extend(idle, acts, s, Arrive(1));
    acts, s := Extend(idle, acts, s, Acquire(1));
    assert s.sh.timer == None && s.sh.inflight == 1 && s.calls[1] == Holding(0);
    acts, s := Extend(idle, acts, s, Release(1));
    assert s.sh.timer == Some(1) && s.sweeps[0] == Fired;
  }

  // No call is held up by anybody else, except where the code waits: a start-up may end either
  // way, a release goes ahead whatever is in flight, and a waiter that wakes enters again.
  lemma NoCallIsHeldUp(s: State, c: Call, ok: bool)
    ensures c !in s.calls ==> Enabled(s, Arrive(c)) && After(s, Arrive(c)).calls[c] == Entering
    ensures c in s.calls ==>
      match s.calls[c]
      case Entering => Enabled(s, Acquire(c))
      case Waiting(p) => p in s.signalled ==> Enabled(s, Wake(c)) && After(s, Wake(c)).calls[c] == Entering
      case Building => Enabled(s, Build(c, ok)) && After(s, Build(c, ok)).calls[c] == Built(ok)
      case Built(_) => Enabled(s, Settle(c))
      case Recorded(_) => Enabled(s, Announce(c)) && c in After(s, Announce(c)).signalled
      case TearingDown => Enabled(s, TearDownOwn(c)) && After(s, TearDownOwn(c)).calls[c] == Unwinding
      case Unwinding => Enabled(s, Release(c)) && After(s, Release(c)).calls[c] == Returned
      case Holding(_) => Enabled(s, Release(c)) && After(s, Release(c)).calls[c] == Returned
      case Returned => true
  {
  }

  // Nor is a timer, a sweep or a `Close`.
  lemma NoCloseIsHeldUp(s: State, t: Call, k: nat)
    ensures t in s.sh.ticking ==> Enabled(s, Fire(t)) && After(s, Fire(t)).sh.timer == s.sh.timer
    ensures t in s.sweeps && s.sweeps[t] == Fired ==> Enabled(s, CloseIdle(t))
    ensures k !in s.closes ==> Enabled(s, ArriveClose(k))
    ensures k in s.closes && s.closes[k] == Arrived ==> Enabled(s, Close(k))
    ensures k in s.closes && s.closes[k].Closing? ==>
      Enabled(s, TearDownClose(k)) && Teardown(s.closes[k].node, ByClose) in After(s, TearDownClose(k)).torn
  {
  }

  // Whatever is in flight, a `Close` leaves the client closed and without a node, and its caller
  // has the node there was unless the client was closed before.
  lemma ClosingEmptiesTheClient(s: State, k: nat)
    requires Reachable(s) && k in s.closes && s.closes[k] == Arrived
    ensures var after := After(s, Close(k));
      && after.sh.closed && after.sh.node.None?
      && after.closes[k] == if s.sh.node.Some? then Closing(s.sh.node.value) else Closed
  {
    ReachableInv(s);
    hide OwnerInv, BorrowInv, ChannelInv, TimerInv, CountInv;
  }

  // The channel a waiter blocks on has been closed, or its maker is still on the way to
  // closing it and has an action to take.
  lemma NoLostWakeup(s: State, c: Call)
    requires Reachable(s) && c in s.calls && s.calls[c].Waiting?
    ensures var p := s.calls[c].pending;
      || Enabled(s, Wake(c))
      || (s.sh.starting == Some(p) && (Enabled(s, Build(p, true)) || Enabled(s, Settle(p))))
      || (p in s.calls && s.calls[p].Recorded? && Enabled(s, Announce(p)))
    ensures Enabled(s, GiveUp(c)) && After(s, GiveUp(c)).calls[c] == Returned && After(s, GiveUp(c)).sh == s.sh
  {
    ReachableInv(s);
    assert Awaitable(s, s.calls[c].pending);
  }

  // Whoever enters is refused exactly by a closed client, and otherwise uses the installed node,
  // waits on the start under way, whose channel nobody has closed yet, or starts one: never does
  // it wait on a start it woke from.
  lemma EnteringGetsSomewhere(s: State, c: Call)
    requires Reachable(s) && Enabled(s, Acquire(c))
    ensures var pc := After(s, Acquire(c)).calls[c];
      && (s.sh.closed <==> pc == Returned)
      && (!s.sh.closed && s.sh.node.Some? ==> pc == Holding(s.sh.node.value))
      && (!s.sh.closed && s.sh.node.None? && s.sh.starting.Some? ==>
            pc == Waiting(s.sh.starting.value) && s.sh.starting.value !in s.signalled)
      && (!s.sh.closed && s.sh.node.None? && s.sh.starting.None? ==> pc == Building)
  {
    ReachableInv(s);
  }

  // ---------------------------------------------------------------- every run ends

  predicate Arrival(a: Action) {
    a.Arrive? || a.ArriveClose?
  }

  predicate Unsettled(pc: Pc) {
    pc == Entering || pc.Waiting? || UnderConstruction(pc) || pc.Recorded?
  }

  ghost function WakeAble(s: State): nat {
    Count(s.calls, (pc: Pc) => pc.Waiting? && pc.pending in s.signalled)
  }

  function Weight(pc: Pc): nat {
    match pc
    case Entering => 3
    case Building => 2
    case Built(_) => 1
    case TearingDown => 5
    case Unwinding => 4
    case Holding(_) => 4
    case _ => 0
  }

  ghost function CallWork(calls: map<Call, Pc>): nat {
    3 * Count(calls, pc => pc == Entering) + 2 * Count(calls, pc => pc == Building) + Count(calls, (pc: Pc) => pc.Built?)
    + 5 * Count(calls, pc => pc == TearingDown) + 4 * Count(calls, (pc: Pc) => pc == Unwinding || pc.Holding?)
  }

  ghost function TimerWork(s: State): nat {
    3 * |s.sh.ticking| + 2 * Count(s.sweeps, pc => pc == Fired) + Count(s.sweeps, (pc: SweepPc) => pc.Sweeping?)
  }

  ghost function CloseWork(closes: map<nat, ClosePc>): nat {
    2 * Count(closes, pc => pc == Arrived) + Count(closes, (pc: ClosePc) => pc.Closing?)
  }

  // `unsettled` times what one announcement can set off among `calls` waiters.
  function Fare(calls: nat, unsettled: nat): nat {
    if unsettled == 0 then 0 else Fare(calls, unsettled - 1) + 4 * calls + 6
  }

  // A bound on the steps left until nothing is in progress, if nothing new arrives.
  ghost function StepsLeft(s: State): nat {
    Fare(|s.calls|, Count(s.calls, Unsettled)) + 4 * WakeAble(s)
    + CallWork(s.calls) + TimerWork(s) + CloseWork(s.closes)
  }

  lemma CallWorkUpdate(calls: map<Call, Pc>, c: Call, pc: Pc)
    requires c in calls
    ensures CallWork(calls[c := pc]) == CallWork(calls) + Weight(pc) - Weight(calls[c])
    ensures Count(calls[c := pc], Unsettled) == Count(calls, Unsettled) + One(Unsettled(pc)) - One(Unsettled(calls[c]))
    ensures |calls[c := pc]| == |calls|
  {
    CountUpdate(calls, c, pc, pc => pc == Entering);
    CountUpdate(calls, c, pc, pc => pc == Building);
    CountUpdate(calls, c, pc, (pc: Pc) => pc.Built?);
    CountUpdate(calls, c, pc, pc => pc == TearingDown);
    CountUpdate(calls, c, pc, (pc: Pc) => pc == Unwinding || pc.Holding?);
    CountUpdate(calls, c, pc, Unsettled);
    assert calls[c := pc].Keys == calls.Keys;
    assert |calls[c := pc].Keys| == |calls.Keys|;
  }

  // What moving one call costs. Only `Announce` makes other calls able to wake.
  lemma CallStepCost(s: State, t: State, c: Call, pc: Pc)
    requires c in s.calls && t.calls == s.calls[c := pc]
    ensures |t.calls| == |s.calls|
    ensures CallWork(t.calls) == CallWork(s.calls) + Weight(pc) - Weight(s.calls[c])
    ensures Count(t.calls, Unsettled) == Count(s.calls, Unsettled) + One(Unsettled(pc)) - One(Unsettled(s.calls[c]))
    ensures WakeAble(t) <= |t.calls|
    ensures t.signalled == s.signalled ==>
      WakeAble(t) == WakeAble(s) + One(pc.Waiting? && pc.pending in s.signalled)
        - One(s.calls[c].Waiting? && s.calls[c].pending in s.signalled)
  {
    CallWorkUpdate(s.calls, c, pc);
    CountWithin(t.calls, (pc: Pc) => pc.Waiting? && pc.pending in t.signalled);
    CountUpdate(s.calls, c, pc, (pc: Pc) => pc.Waiting? && pc.pending in s.signalled);
  }

  // Calls stop timers; only a release arms one.
  lemma TimerCost(s: State, a: Action)
    requires Enabled(s, a)
    requires a.Acquire? || a.Wake? || a.GiveUp? || a.Build? || a.Settle? || a.Announce? || a.TearDownOwn? || a.Release?
    ensures TimerWork(After(s, a)) <= TimerWork(s) + 3 * One(a.Release?)
    ensures CloseWork(After(s, a).closes) == CloseWork(s.closes)
  {
    var now := After(s, a).sh.ticking;
    if a.Release? {
      SubsetSize(now - {a.call}, s.sh.ticking);
    } else {
      SubsetSize(now, s.sh.ticking);
    }
  }

  lemma AcquireGetsOn(s: State, c: Call)
    requires StartInv(s) && ChannelInv(s) && Enabled(s, Acquire(c))
    ensures var t := After(s, Acquire(c));
      && c in s.calls && s.calls[c] == Entering && c in t.calls && t.calls == s.calls[c := t.calls[c]]
      && t.signalled == s.signalled
      && (t.calls[c] == Returned || t.calls[c].Holding? || t.calls[c] == Building
          || (t.calls[c].Waiting? && t.calls[c].pending !in s.signalled))
  {
  }

  lemma AcquireRunsDown(s: State, c: Call)
    requires StartInv(s) && ChannelInv(s) && Enabled(s, Acquire(c))
    ensures StepsLeft(After(s, Acquire(c))) < StepsLeft(s)
  {
    hide StartInv, ChannelInv, CallWork, TimerWork, CloseWork, WakeAble, Count, Enabled, After;
    AcquireGetsOn(s, c);
    TimerCost(s, Acquire(c));
    CallStepCost(s, After(s, Acquire(c)), c, After(s, Acquire(c)).calls[c]);
  }

  lemma AnnounceRunsDown(s: State, c: Call)
    requires Enabled(s, Announce(c))
    ensures StepsLeft(After(s, Announce(c))) < StepsLeft(s)
  {
    hide CallWork, TimerWork, CloseWork, WakeAble, Count;
    CallStepCost(s, After(s, Announce(c)), c, After(s, Announce(c)).calls[c]);
    TimerCost(s, Announce(c));
  }

  lemma OwnStepsRunDown(s: State, a: Action)
    requires Enabled(s, a)
    requires a.Wake? || a.GiveUp? || a.Build? || a.Settle? || a.TearDownOwn? || a.Release?
    ensures StepsLeft(After(s, a)) < StepsLeft(s)
  {
    hide CallWork, TimerWork, CloseWork, WakeAble, Count, Released, Settled;
    CallStepCost(s, After(s, a), a.call, After(s, a).calls[a.call]);
    TimerCost(s, a);
  }

  // A timer moves alone, and touches no call.
  lemma TimerMoves(s: State, a: Action)
    requires TimerInv(s) && Enabled(s, a) && (a.Fire? || a.CloseIdle? || a.TearDownIdle?)
    ensures var t := After(s, a);
      && t.calls == s.calls && t.signalled == s.signalled && t.closes == s.closes
      && a.timer in t.sweeps && t.sweeps == s.sweeps[a.timer := t.sweeps[a.timer]]
      && (if a.Fire? then
            a.timer in s.sh.ticking && a.timer !in s.sweeps && t.sh.ticking == s.sh.ticking - {a.timer} && t.sweeps[a.timer] == Fired
          else
            && t.sh.ticking == s.sh.ticking && a.timer in s.sweeps
            && SweepWeight(t.sweeps[a.timer]) < SweepWeight(s.sweeps[a.timer]))
  {
  }

  function SweepWeight(pc: SweepPc): nat {
    match pc
    case Fired => 2
    case Sweeping(_) => 1
    case Done => 0
  }

  lemma TimersRunDown(s: State, a: Action)
    requires Inv(s) && Enabled(s, a)
    requires a.Fire? || a.CloseIdle? || a.TearDownIdle?
    ensures StepsLeft(After(s, a)) < StepsLeft(s)
  {
    TimerMoves(s, a);
    hide Inv, After, Enabled, CallWork, CloseWork, WakeAble, Count, Fare;
    var t := After(s, a);
    CountUpdate(s.sweeps, a.timer, t.sweeps[a.timer], pc => pc == Fired);
    CountUpdate(s.sweeps, a.timer, t.sweeps[a.timer], (pc: SweepPc) => pc.Sweeping?);
    assert WakeAble(t) == WakeAble(s) by { SameCallsWake(s, t); }
  }

  lemma SameCallsWake(s: State, t: State)
    requires t.calls == s.calls && t.signalled == s.signalled
    ensures WakeAble(t) == WakeAble(s)
  {
    assert Those(t.calls, (pc: Pc) => pc.Waiting? && pc.pending in t.signalled)
        == Those(s.calls, (pc: Pc) => pc.Waiting? && pc.pending in s.signalled);
  }

  lemma CloseMoves(s: State, a: Action)
    requires Enabled(s, a) && (a.Close? || a.TearDownClose?)
    ensures var t := After(s, a);
      && t.calls == s.calls && t.signalled == s.signalled && t.sweeps == s.sweeps && t.sh.ticking <= s.sh.ticking
      && a.id in s.closes && a.id in t.closes && t.closes == s.closes[a.id := t.closes[a.id]]
      && (if a.Close? then s.closes[a.id] == Arrived && t.closes[a.id] != Arrived
          else s.closes[a.id].Closing? && t.closes[a.id] == Closed)
  {
  }

  lemma ClosesRunDown(s: State, a: Action)
    requires Inv(s) && Enabled(s, a)
    requires a.Close? || a.TearDownClose?
    ensures StepsLeft(After(s, a)) < StepsLeft(s)
  {
    CloseMoves(s, a);
    hide Inv, After, Enabled, CallWork, WakeAble, Count, Fare;
    var t := After(s, a);
    CountUpdate(s.closes, a.id, t.closes[a.id], pc => pc == Arrived);
    CountUpdate(s.closes, a.id, t.closes[a.id], (pc: ClosePc) => pc.Closing?);
    SubsetSize(t.sh.ticking, s.sh.ticking);
    SameCallsWake(s, t);
  }

  // Waiters that wake and wait again included, every step but an arrival counts down.
  lemma EveryStepCounts(s: State, a: Action)
    requires Inv(s) && Enabled(s, a) && !Arrival(a)
    ensures StepsLeft(After(s, a)) < StepsLeft(s)
  {
    if a.Fire? || a.CloseIdle? || a.TearDownIdle? {
      TimersRunDown(s, a);
    } else if a.Close? || a.TearDownClose? {
      ClosesRunDown(s, a);
    } else if a.Acquire? {
      AcquireRunsDown(s, a.call);
    } else if a.Announce? {
      AnnounceRunsDown(s, a.call);
    } else {
      OwnStepsRunDown(s, a);
    }
  }

  lemma LastStepCounts(idle: int, acts: seq<Action>, last: Action)
    requires Replay(idle, acts + [last]).Some? && !Arrival(last)
    ensures Replay(idle, acts).Some?
    ensures StepsLeft(Replay(idle, acts + [last]).value) < StepsLeft(Replay(idle, acts).value)
  {
    assert (acts + [last])[..|acts|] == acts;
    RunsKeepInv(idle, acts);
    EveryStepCounts(Replay(idle, acts).value, last);
  }

  // So no run goes on for ever without new arrivals: after `acts`, at most `StepsLeft` more.
  lemma {:induction false} RunsAreBounded(idle: int, acts: seq<Action>, more: seq<Action>)
    requires Replay(idle, acts + more).Some?
    requires forall a :: a in more ==> !Arrival(a)
    ensures Replay(idle, acts).Some?
    ensures |more| + StepsLeft(Replay(idle, acts + more).value) <= StepsLeft(Replay(idle, acts).value)
  {
    if more == [] {
      assert acts + more == acts;
    } else {
      var init, last := more[..|more| - 1], more[|more| - 1];
      assert acts + more == (acts + init) + [last];
      LastStepCounts(idle, acts + init, last);
      RunsAreBounded(idle, acts, init);
    }
  }

  // Nothing is ever stuck: short of quiet there is a step to take that needs no deadline.
  lemma StuckMeansQuiet(s: State)
    requires Reachable(s)
    requires forall a :: Enabled(s, a) ==> Arrival(a) || a.GiveUp?
    ensures Quiet(s) && s.sh.ticking == {}
  {
    ReachableInv(s);
    forall c | c in s.calls ensures s.calls[c] == Returned {
      if s.calls[c] != Returned {
        var a := CanMove(s, c);
      }
    }
    TimersCanMove(s);
    hide Inv, Reachable;
    forall k | k in s.closes ensures s.closes[k] == Closed {
      assert !Enabled(s, Close(k)) && !Enabled(s, TearDownClose(k));
    }
  }

  lemma TimersCanMove(s: State)
    requires forall a :: Enabled(s, a) ==> Arrival(a) || a.GiveUp?
    ensures forall t :: t in s.sweeps ==> s.sweeps[t] == Done
    ensures s.sh.ticking == {}
  {
    forall t | t in s.sweeps ensures s.sweeps[t] == Done {
      assert !Enabled(s, CloseIdle(t)) && !Enabled(s, TearDownIdle(t));
    }
    forall t ensures t !in s.sh.ticking {
      assert !Enabled(s, Fire(t));
    }
  }

  lemma CanMove(s: State, c: Call) returns (a: Action)
    requires Inv(s) && c in s.calls && s.calls[c] != Returned
    ensures Enabled(s, a) && !Arrival(a) && !a.GiveUp?
  {
    match s.calls[c]
    case Entering => a := Acquire(c);
    case Building => a := Build(c, true);
    case Built(_) => a := Settle(c);
    case Recorded(_) => a := Announce(c);
    case TearingDown => a := TearDownOwn(c);
    case Waiting(p) =>
      assert Awaitable(s, p);
      hide Inv;
      a := if p in s.signalled then Wake(c)
        else if s.calls[p] == Building then Build(p, true)
        else if s.calls[p].Built? then Settle(p) else Announce(p);
    case _ => a := Release(c);
  }
}
